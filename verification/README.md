# code-block-writer in Dafny

A model of `CodeBlockWriter`, the code-emission engine of code-block-writer. A writer builds
source text piece by piece:
- it indents each new line to the current level, which may be fractional;
- it defers a newline after a block;
- it tracks, character by character, whether the output is inside a string literal, a
  template placeholder, a comment or a regular expression. This keeps it from indenting
  inside a multi-line string.

The model also covers three smaller pieces of the repository:
- the string escaper used by `quote`;
- the `es5StringRepeat` fallback;
- the small legacy writer in `src/code-block-writer.ts`.

The model is functional. The JavaScript object's mutable fields become one immutable
`Writer.Writer` record, and every public method becomes a pure transition from writer to
writer. Errors are returned, not thrown:
- A method that throws before it changes anything returns a `Result`.
- A method that can throw after changing state returns an `Outcome`: the writer as the
  exception leaves it, plus the error. `space(-1)` is such a method: the deferred newline has
  already been written when `" ".repeat(-1)` throws.

Modules, one per part of the engine:

- `Results`: `Option`, `Result` and the error kinds the writer throws.
- `TextBuffer`: the fragment list `_texts` and its cached `_length`:
  - append;
  - reverse character lookup by offset and reverse iteration;
  - `isLastBlankLine`, `endsWith` and the block test used when dequeuing indentation;
  - `toString`;
  - the splice done by `unsafeInsert`.
- `Scanner`: the lexical state machine of `_updateInternalState` and the newline rules of
  `_baseWriteNewline`:
  - a stack of string delimiters;
  - a comment mode;
  - a regex flag;
  - the `isCharToHandle` filter, which is part of the behaviour.
- `Indentation`: the three indentation fields, argument parsing (`_getIndentationLevelFromArg`,
  `getSpacesAndTabsCount`), queueing and hanging indents, dequeue on newline, and rendering of a
  fractional level as whitespace.
- `StringUtils`: `escapeForWithinString` with an independent `Unescape`, and `stringRepeat` /
  `es5StringRepeat` against a reference `Repeat`.
- `Writer`: the write/newline engine and every public method that takes no callback.
  - Contents: `_writeIndentingNewLines`, `_baseWriteNewline`, `_newLineIfNewLineOnNextWrite`,
    `write`, `writeLine`, `newLine`, `blankLine`, `quote`, `space`, `tab`, `closeComment`,
    `unsafeInsert`, the indentation setters and the queries.
  - The open and close halves of `block`, `inlineBlock` and `indent(block)` are here too.
- `Commands`: the callback-taking methods `block`, `inlineBlock`, `indent(block)`,
  `withIndentationLevel`, `hangingIndent` and `hangingIndentUnlessBlock`.
  - A callback is a list of commands.
  - An exception stops the list.
  - `_withResetIndentation` restores the indentation state whether the body throws or not.
- `LegacyWriter`: the legacy writer.
  - Its `write` pads a new line with `Array(n).join(" ")`, which is `n - 1` spaces.
  - The module is parameterised by that rule, as written or corrected, so that both halves of
    the finding below are proved about the same code.

Where the code's behaviour differs from what one might expect, the model follows the code:
- `endsWith("")` is false.
- `block` writes a separating space only when the buffer is non-empty and does not already end
  in a newline.
- The "only if not block" branch of `_dequeueQueuedIndentation` clears both fields.
- The other branch of `_dequeueQueuedIndentation` leaves `_queuedOnlyIfNotBlock` as it was.

## Model

| member | source | states |
|---|---|---|
| TextBuffer.Append | mod.ts:915-922 | appending extends the buffer's text by exactly the given text and the cached length by its length, keeps the length invariant, and drops an empty text |
| TextBuffer.LastCharInConcat | mod.ts:872-880 | walking the fragments from the back and subtracting their lengths finds the character `offset` places before the end of the concatenated text, and nothing past its start |
| TextBuffer.LastCharWithOffset | mod.ts:867-881 | the lookup is empty for a negative offset or one at least the length, and otherwise is the character at index `length - 1 - offset` of the whole text |
| TextBuffer.CharsFromEndReversesText | mod.ts:694-707 | reverse iteration over the fragments visits exactly the buffer's text, last character first |
| TextBuffer.BlankLineScanSpec | mod.ts:619-634 | the backwards scan with a running line-feed count succeeds exactly when the text ends in a run of CR/LF characters that, with the count so far, holds two line feeds |
| TextBuffer.IsLastBlankLineSpec | mod.ts:614-635 | `isLastBlankLine` holds exactly when the text ends in a run made only of CR and LF that contains at least two line feeds |
| TextBuffer.EndsWithScanSpec | mod.ts:665-672 | the backwards comparison succeeds exactly when the unmatched prefix of the text is a non-empty suffix of the buffer |
| TextBuffer.EndsWith | mod.ts:663-673 | `endsWith(text)` is true exactly when the text is non-empty and a suffix of the buffer's text |
| TextBuffer.BlockScanSpec | mod.ts:788-807 | the `wasLastBlock` scan succeeds exactly when an opening brace is followed only by CR/LF characters holding at most one line feed (counting one already found) |
| TextBuffer.WasLastBlockSpec | mod.ts:788-807 | the last line, ignoring a trailing run of CR/LF with at most one line feed, ends with `{` exactly when `wasLastBlock` holds |
| TextBuffer.ToString | mod.ts:712-720 | `toString` returns the concatenation of all fragments and leaves at most one fragment with the same text and length |
| TextBuffer.ToStringIdempotent | mod.ts:712-720 | a second `toString` with no write in between changes nothing and returns the same text |
| TextBuffer.FrontSearchLocates | mod.ts:541-551 | the front-to-back search finds a fragment and an offset inside it that name the requested position |
| TextBuffer.BackSearchLocates | mod.ts:552-561 | the back-to-front search finds a fragment and an offset inside it that name the requested position |
| TextBuffer.Locate | mod.ts:540-565 | for a position strictly inside the text a location is always found, so the "unhandled situation" throw is unreachable |
| TextBuffer.SpliceAtInserts | mod.ts:525-538 | each of the three splice shapes makes the text the old text up to the position, the inserted text, then the rest |
| TextBuffer.InsertWithin | mod.ts:511-538 | an insert strictly inside the text puts the text at the position, keeps everything else in order, and keeps the cached length equal to the text's length |
| Scanner.InStringIffQuoteOnTop | mod.ts:599-601 | when the stack has its shape, `isInString` holds exactly when the top of the stack is a quote character |
| Scanner.PopKeepsShape | mod.ts:854 | popping a well-shaped stack leaves a well-shaped stack |
| Scanner.PushKeepsShape | mod.ts:855-859 | pushing `{` onto a backtick, or a quote onto an empty stack or onto `{`, keeps the shape |
| Scanner.StackAfterKeepsShape | mod.ts:851-862 | the string rules keep the stack shape: `{` only directly above a backtick, a quote only at the bottom or above `{` |
| Scanner.Step | mod.ts:811-864 | only the ten handled characters change state; inside a regex only the exit pattern acts; regex mode starts only outside strings and comments on the start pattern; `//` and `/*` open a comment only outside one; `*/` closes only a star comment; comments skip the string rules; the stack shape is kept |
| Scanner.StepStackMoves | mod.ts:851-862 | one character either leaves the stack alone, pops a top equal to an unescaped quote or a `{` under `}`, or pushes an unescaped quote onto an empty stack or `{`, or pushes `{` after an unescaped `$` onto a backtick |
| Scanner.Scan | mod.ts:811-864 | scanning a whole string keeps the stack shape, never leaves a line comment, and never has regex mode inside a comment |
| Scanner.ScanAppend | mod.ts:822-823 | scanning `a + b` is scanning `a` and then `b`, with the two characters before `b` taken from `a` and the buffer |
| Scanner.ScanInert | mod.ts:818-820 | a string none of whose characters is handled leaves the whole scanner state unchanged |
| Scanner.ScanKeepsStack | mod.ts:851-862 | outside a string, text with no quote character, and with `}` only when the stack is empty, leaves the stack unchanged whatever else it holds (comments, regexes, `{`, `$`, backslashes) |
| Scanner.QuotedLiteral | mod.ts:852-857 | outside strings, comments and regexes, an unescaped quote opens a string and the same quote after inert text closes it, restoring the state |
| Scanner.AtNewLine | mod.ts:759-767 | a newline ends a line comment, leaves a star comment and the regex flag as they were, and keeps the stack shape |
| Scanner.NewLineEndsQuoteStrings | mod.ts:764-767 | a newline pops a `"` or `'` string unless the last character written is a backslash; a backtick string survives |
| Scanner.NewLineKeepsStack | mod.ts:764-767 | outside a string a newline leaves the stack unchanged |
| Scanner.StarCommentCloser | mod.ts:842-843 | writing `*/` inside a star comment ends it |
| StringUtils.Repeat | src/utils/stringUtils.ts:15-18 | the reference repetition has `n` times the length of the repeated text |
| StringUtils.RepeatBlock | src/utils/stringUtils.ts:15-18 | character `j` of copy `q` in the repetition is character `j` of the text |
| StringUtils.RepeatUniform | src/utils/stringUtils.ts:15-18 | repeating a text of one character gives only that character |
| StringUtils.NativeRepeat | src/utils/stringUtils.ts:4-5 | native `repeat` fails exactly for a negative count, and otherwise has `times` times the length |
| StringUtils.Es5StringRepeat | src/utils/stringUtils.ts:11-19 | throws exactly when `times < 0`; otherwise returns `times` copies of the text, so the empty string for 0 |
| StringUtils.StringRepeat | src/utils/stringUtils.ts:2-8 | whichever branch runs, fails exactly for a negative count and otherwise is the text repeated `times` times; without native `repeat` the failure is `es5StringRepeat`'s |
| StringUtils.EscapeRoundTrip | utils/string_utils.ts:1-19 | unescaping the escaped text gives back the original text, for every quote kind except `r` and `n` |
| StringUtils.EscapeAppend | utils/string_utils.ts:5-17 | escaping is character by character: it distributes over a concatenation that does not split a CRLF |
| StringUtils.EscapePlainText | utils/string_utils.ts:5-17 | text with no backslash, no line feed and no quote-kind character is copied unchanged, a lone CR included |
| StringUtils.EscapeQuote | utils/string_utils.ts:6-7 | each quote-kind character gets one backslash in front of it |
| StringUtils.EscapeBackslash | utils/string_utils.ts:13-14 | every backslash is doubled |
| StringUtils.EscapeLineFeed | utils/string_utils.ts:11-12 | a lone line feed becomes backslash, `n`, backslash, line feed |
| StringUtils.EscapeCarriageReturnLineFeed | utils/string_utils.ts:8-10 | CRLF becomes backslash, `r`, backslash, `n`, backslash, line feed, and the CR itself is dropped |
| Indentation.SpacesAndTabsCover | mod.ts:983-997 | spaces and tabs never outnumber the characters, and fill the string exactly when it holds nothing else |
| Indentation.GetSpacesAndTabsCount | mod.ts:983-997 | the loop counts exactly the spaces and exactly the tabs of the text |
| Indentation.LevelFromArg | mod.ts:927-943 | a negative number, a string with anything but spaces and tabs, or another kind of argument is an error of its own kind; otherwise the level is the number, or for a string its tab count plus its space count divided by `indentNumberOfSpaces` |
| Indentation.LevelAppend | mod.ts:938-939 | the level of two whitespace strings written one after the other is the sum of their levels |
| Indentation.MixedLevel | mod.ts:938-939 | one tab and two spaces at four spaces per level is level 1.5 |
| Indentation.LevelOfTabs | mod.ts:938-939 | a string of `k` tabs is level `k` |
| Indentation.LevelOfSpaces | mod.ts:938-939 | a string of `k` spaces is level `k / indentNumberOfSpaces` |
| Indentation.IndentationText | mod.ts:976-981 | one indentation unit is a tab, or exactly `indentNumberOfSpaces` spaces |
| Indentation.SetLevel | mod.ts:174-177 | setting the level fails exactly when the argument is bad, and otherwise replaces only the current level |
| Indentation.QueueLevel | mod.ts:137-141 | queueing fails exactly when the argument is bad, and otherwise queues the parsed level, keeps the current one and clears the block condition |
| Indentation.QueueHanging | mod.ts:147-160 | a hanging indent queues the current level plus one, conditioned on the last line not opening a block when asked |
| Indentation.Dequeue | mod.ts:775-787 | dequeueing always empties the queue; the queued level replaces the current one unless the "not after a block" condition holds and the last line opened a block |
| Indentation.DequeueOnce | mod.ts:775-787 | a second dequeue changes nothing |
| Indentation.HangingIndentLands | mod.ts:147-160 | after a hanging indent and a newline the level is one deeper, except for the block-conditioned variant after a line that opened a block |
| Indentation.Round | mod.ts:894 | `Math.round` gives the integer within one half of its argument, ties rounding up |
| Indentation.WholeUnits | mod.ts:885-886 | the whole-level part of the indentation is the unit repeated floor(level) times |
| Indentation.Overflow | mod.ts:888 | the overflow is the fractional part of the level, in [0, 1) |
| Indentation.Portion | mod.ts:894 | the partial-space count is within one half of the unit length times the overflow, and never more than the unit |
| Indentation.PartialUnit | mod.ts:889-902 | with tabs, one extra tab exactly when the overflow exceeds one half; with spaces, the first rounded portion of the unit |
| Indentation.RenderUniform | mod.ts:884-903 | rendered indentation consists only of the unit's character |
| Indentation.RenderIsWhitespace | mod.ts:884-903 | rendered indentation is always a valid whitespace argument for the indentation setters |
| Indentation.RenderWholeLevelRoundTrip | mod.ts:884-903 | parsing the indentation rendered for a whole level gives that level back |
| Indentation.RenderSpacesApproximates | mod.ts:884-903 | with spaces, parsing the rendered indentation gives the level within half a space |
| Indentation.RenderTabsApproximates | mod.ts:884-903 | with tabs, parsing the rendered indentation gives the whole level nearest the fractional one |
| Writer.NewLineChars | mod.ts:71 | the configured newline is non-empty, made of CR and LF, and ends in LF |
| Writer.ResolveOptions | mod.ts:105-112 | whatever options are given, the resolved number of spaces per level is positive |
| Writer.New | mod.ts:79-112 | a new writer is empty, satisfies the writer invariant, has level 0 with nothing queued, a fresh scanner and the first-line flag set |
| Writer.OptionsRoundTrip | mod.ts:105-124 | `getOptions` of a writer built from complete options returns them; the defaults are LF, 4 spaces, no tabs and double quotes |
| Writer.LastCharOfText | mod.ts:654-657 | `getLastChar` is the last character of the text, or none for an empty buffer |
| Writer.WriteIndentation | mod.ts:884-903 | writing indentation appends exactly the rendering of the current level and changes nothing else |
| Writer.WriteIndividual | mod.ts:745-755 | one line segment is appended after the indentation exactly when the writer is at a line start and not in a string; an inert segment leaves the scanner alone, and outside a string a segment that opens and closes no string leaves the stack alone |
| Writer.BaseWriteNewline | mod.ts:759-772 | a newline appends the configured newline, applies the newline scanner rules, clears the first-line flag and dequeues the indentation using the block test on the new text |
| Writer.SplitLines | mod.ts:732 | splitting on `\r?\n` gives at least one piece and no piece contains a line feed |
| Writer.SplitLinesJoin | mod.ts:732 | joining the pieces with LF gives the text with every CRLF normalised to LF |
| Writer.SplitLinesOfLine | mod.ts:732 | a text without line feeds is one piece |
| Writer.SplitLinesAfterLine | mod.ts:732 | a line, a line feed and the rest split into that line followed by the pieces of the rest |
| Writer.JoinSplitLines | mod.ts:732 | splitting lines joined with LF gives the lines back when none ends in CR |
| Writer.WriteItems | mod.ts:733-743 | writing the pieces keeps the invariant and the level, only appends, and leaves the deferred-newline flag alone |
| Writer.ItemStep | mod.ts:734-742 | one piece, with a newline before every piece but the first, keeps the invariant and the level and only appends |
| Writer.WriteIndentingNewLines | mod.ts:725-756 | the write engine keeps the invariant and the level, only appends, and leaves the deferred-newline flag alone; the empty text adds the indentation exactly when a line is due; outside a string with nothing queued, a text that opens and closes no string adds exactly the layout of its `\r?\n`-separated lines and keeps the string stack |
| Writer.WriteItemsLayout | mod.ts:732-743 | outside strings with nothing queued, writing pieces that open and close no string appends exactly their layout: one configured newline between pieces, and indentation only before a non-empty piece at a line start |
| Writer.WriteTextLayout | mod.ts:461-465 | with no newline pending, `write` of a non-empty text that opens and closes no string appends exactly the layout of its lines: each `\r?\n` becomes one configured newline, empty lines get no indentation, other lines at a line start get the current indentation |
| Writer.WriteAtLevelZero | mod.ts:461-465 | at level 0 with LF newlines and outside a string, a non-empty text without CR that opens and closes no string is appended verbatim |
| Writer.LayoutWithoutIndent | mod.ts:732-743 | with empty indentation the layout is the pieces joined by the newline |
| Writer.NormalizeWithoutCarriageReturn | mod.ts:732 | text without CR is unchanged by newline normalisation |
| Writer.EmptyWriteIndents | mod.ts:726-729 | writing the empty text at a line start writes the indentation |
| Writer.WriteEndsWithText | mod.ts:725-756 | after writing a non-empty line the buffer ends with it, and an inert line leaves the scanner unchanged |
| Writer.WriteOneLine | mod.ts:725-756 | a text with no line feed is written as one segment: the indentation when a line is due, then the text, whatever characters it holds |
| Writer.WriteAtLineStart | mod.ts:745-754 | a line written at a line start outside a string lands after exactly the current indentation and becomes the last character |
| Writer.NewLine | mod.ts:370-374 | `newLine` appends exactly the configured newline, clears the deferred newline and the first-line flag, and keeps a star comment |
| Writer.NewLineIfNewLineOnNextWrite | mod.ts:906-912 | a deferred newline is written once and cleared; with none pending nothing changes |
| Writer.Write | mod.ts:461-465 | `write` keeps the invariant and the level, only appends, and consumes the deferred newline |
| Writer.ConditionalWrite | mod.ts:449-455 | a false condition changes nothing; a true one is exactly `write` of the text |
| Writer.NewLineIfLastNot | mod.ts:318-326 | afterwards the text ends in a newline; a pending newline is written once, and then nothing more; with none pending, one newline is added exactly when the text did not end in one, and otherwise nothing changes |
| Writer.NewLineIfLastNotIdempotent | mod.ts:318-326 | a second `newLineIfLastNot` changes nothing |
| Writer.WriteLine | mod.ts:304-313 | `writeLine` leaves the text ending in a newline, keeps the level and only appends |
| Writer.WriteLineText | mod.ts:304-313 | for text that opens and closes no string, outside a string with nothing queued, `writeLine` writes a newline first exactly when one is pending or the text does not end at a line start, then the lines laid out from a line start (the bare indentation for an empty text), then the configured newline |
| Writer.ConditionalWriteLine | mod.ts:292-298 | a false condition changes nothing; a true one is exactly `writeLine` of the text |
| Writer.BlankLine | mod.ts:352-354 | `blankLine` leaves the text ending in a blank line, unless it ended in a lone CR (see Left out) |
| Writer.EndsWithTwoNewLines | mod.ts:352-354 | a newline written after a line feed makes the text end in a blank line |
| Writer.BlankLineIfLastNot | mod.ts:331-336 | a text already ending in a blank line is left alone; otherwise it is made to end in one (lone CR aside) |
| Writer.ConditionalBlankLine | mod.ts:342-347 | a false condition changes nothing; a true one ends the text in a blank line (lone CR aside) |
| Writer.ConditionalNewLine | mod.ts:360-365 | a false condition changes nothing; a true one appends exactly the configured newline |
| Writer.QuotedTextRoundTrip | mod.ts:385-389 | the quoted text starts and ends with the configured quote character, and the part between them unescapes to the argument |
| Writer.Quote | mod.ts:385-389 | `quote` keeps the invariant and the level, only appends, and consumes the deferred newline |
| Writer.SpaceIfLastNot | mod.ts:394-402 | afterwards the last character is a space; one already there means nothing changes |
| Writer.Space | mod.ts:408-412 | a negative count throws after the deferred newline is written; otherwise, after that newline, it appends the indentation when a line is due (even for a count of 0) and then exactly that many spaces |
| Writer.TabIfLastNot | mod.ts:417-425 | afterwards the last character is a tab; one already there means nothing changes |
| Writer.Tab | mod.ts:431-435 | a negative count throws after the deferred newline is written; otherwise, after that newline, it appends the indentation when a line is due (even for a count of 0) and then exactly that many tabs |
| Writer.IndentTimes | mod.ts:253-256 | `indent(n)` throws for a negative count after the deferred newline; otherwise, after that newline, it appends the indentation when a line is due and then exactly `n` indentation units |
| Writer.CloseComment | mod.ts:470-490 | afterwards the writer is not in a comment; with no comment open nothing changes |
| Writer.StarCommentWriteEnds | mod.ts:477-482 | writing `*/` inside a star comment ends it |
| Writer.UnsafeInsert | mod.ts:502-566 | a negative position or one past the end throws and changes nothing; the end position is a plain `write`; any other position inserts the text there and changes nothing else |
| Writer.GetLength | mod.ts:571-573 | the cached length is the length of the text |
| Writer.WriterToString | mod.ts:712-720 | `toString` returns the text and changes only the fragment layout |
| Writer.FirstLineOfBlock | mod.ts:585-594 | a new writer is at the start of the first line of a block; after a newline it is not on the first line |
| Writer.SetIndentationLevel | mod.ts:174-177 | fails exactly for a bad argument; otherwise the level becomes the parsed one and nothing else changes |
| Writer.QueueIndentationLevel | mod.ts:137-141 | fails exactly for a bad argument; otherwise the parsed level is queued and the current level is unchanged |
| Writer.QueuedLevelAfterNewLine | mod.ts:775-786 | a queued level becomes the current one at the next newline, and the queue empties |
| Writer.QueueHangingIndent | mod.ts:147-160 | a hanging indent queues one level deeper than the current one and changes nothing else |
| Writer.RestoreIndentation | mod.ts:946-950 | restoring puts back the saved indentation state and changes nothing else |
| Writer.IndentBlockOpen | mod.ts:267-272 | opening an indented block ends any non-empty text in a newline, sets the first-line flag and deepens the level by one |
| Writer.IndentBlockClose | mod.ts:276-277 | closing clears the first-line flag and lowers the level by one, never below 0 |
| Writer.InlineBlockOpen | mod.ts:235-238 | opening an inline block leaves the text ending in a newline, one level deeper, on the block's first line |
| Writer.InlineBlockClose | mod.ts:238-239 | closing an inline block restores the level, clamped at 0, and ends the text with `}` |
| Writer.BlockOpen | mod.ts:221-226 | opening a block leaves the text ending in a newline, one level deeper, on the block's first line |
| Writer.BlockClose | mod.ts:226-228 | closing a block ends the text with `}` and defers a newline |
| Writer.IndentClose | mod.ts:258-262 | after `indent(block)` a newline is deferred exactly when the text does not end in a newline |
| Writer.BlockSeparator | mod.ts:222-225 | before the brace of `block`, a line that already has text ends in a space, and the level is untouched |
| Writer.BlockOpenAtLineStart | mod.ts:221-238 | at a line start, `block` writes the current indentation, `{` and one newline, one level deeper |
| Writer.InlineBlockOpenAtLineStart | mod.ts:235-238 | at a line start, `inlineBlock` writes the current indentation, `{` and one newline, one level deeper |
| Writer.NewLineAfterBrace | mod.ts:267-272 | after a `{`, opening the indented body writes just one newline |
| Writer.BlockCloseAfterText | mod.ts:226-239 | after a line of text, closing a block writes a newline, the outer indentation and `}`, and defers a newline |
| Writer.InlineBlockCloseAfterText | mod.ts:238-239 | after a line of text, closing an inline block writes a newline, the outer indentation and `}` |
| Commands.ExecCall | mod.ts:292-566 | every closure-free call keeps the writer invariant and only appends unless it is an insert; only calls that can throw do, and most keep the level |
| Commands.Exec | mod.ts:137-279 | every command keeps the writer invariant; a body without inserts only appends; scoped commands restore the indentation; a block that returns ends with `}` and, for `block`, a deferred newline |
| Commands.ExecRestoring | mod.ts:199-208 | the scopes built on `_withResetIndentation` put the indentation state back whether or not the body throws |
| Commands.ExecNested | mod.ts:221-278 | `block`, `inlineBlock` and `indent(block)` keep the level of a steady body; the two brace blocks end with `}` when the body returns |
| Commands.ExecBlock | mod.ts:221-229 | `block(body)` ends with `}` and a deferred newline when the body returns, and throws exactly when the body does |
| Commands.ExecInlineBlock | mod.ts:235-242 | `inlineBlock(body)` ends with `}` when the body returns, and throws exactly when the body does |
| Commands.ExecIndentBlock | mod.ts:253-278 | after `indent(body)` the writer is at a line start or has a newline deferred |
| Commands.ExecWithIndentationLevel | mod.ts:194-208 | `withIndentationLevel` restores the whole indentation state, also when the body throws; a bad argument throws before anything is written |
| Commands.ExecHanging | mod.ts:147-160 | `hangingIndent` and `hangingIndentUnlessBlock` restore the whole indentation state and throw exactly when the body throws |
| Commands.ExecAll | mod.ts:202-206 | running a body keeps the invariant, and a body without inserts only appends |
| Commands.ExecAllAppend | mod.ts:202-206 | running `a + b` is running `a` and then, unless `a` threw, `b` |
| Commands.ThrowStops | mod.ts:202-206 | once a command throws, the rest of the body has no effect |
| Commands.BlockOfOneLine | mod.ts:221-242 | at a line start, `block` around one line writes the outer indentation, `{`, a newline, the line at one level deeper, a newline, the outer indentation and `}`, then restores the level |
| LegacyWriter.New | src/code-block-writer.ts:2-5 | a new legacy writer is empty at level 0, with 4 spaces per level, not after a newline |
| LegacyWriter.JoinEmpty | src/code-block-writer.ts:46 | joining `n` empty slots gives `n - 1` separators, none for `n = 0` |
| LegacyWriter.JoinEmptyRepeats | mod.ts:980 | joining `n + 1` empty slots is the separator repeated `n` times |
| LegacyWriter.Padding | src/code-block-writer.ts:46 | the line padding is spaces; as written it is one short of `4 * level`, corrected it is exactly that |
| LegacyWriter.PaddingFallsShort | src/code-block-writer.ts:46 | as written, every indented line gets one space fewer than its level asks for |
| LegacyWriter.Write | src/code-block-writer.ts:41-53 | `write` only appends and ends the text with the argument; after a newline, any argument but `"\n"` is written as exactly the padding and then the argument |
| LegacyWriter.NewLine | src/code-block-writer.ts:34-39 | `newLine` appends a bare `"\n"` and marks the writer as after a newline |
| LegacyWriter.NewLineIfLastNotNewLine | src/code-block-writer.ts:26-32 | a newline is added exactly when the last write was not one |
| LegacyWriter.WriteLine | src/code-block-writer.ts:18-24 | `writeLine` appends exactly a `"\n"` unless the last write was one, the padding unless the argument is `"\n"`, the argument, and `"\n"` |
| LegacyWriter.Exec | src/code-block-writer.ts:7-16 | a command only appends and keeps the settings; a block ends the text with `"}\n"` |
| LegacyWriter.ExecBlock | src/code-block-writer.ts:7-16 | `block` returns at the level it started at and ends the text with `"}\n"` |
| LegacyWriter.ExecAll | src/code-block-writer.ts:11 | a block body only appends and returns at the level it started at |
| LegacyWriter.BlockOfOneWrite | src/code-block-writer.ts:7-16 | `block` around one write gives ` {`, a newline, the inner padding, the text, a newline, the outer padding and `}` plus a newline |
| LegacyWriter.CloseAfterWrite | src/code-block-writer.ts:12-13 | closing after text writes a newline, the outer padding, `}` and a newline |
| LegacyWriter.CorrectedBlockOfOneWrite | src/code-block-writer.ts:7-16 | with the corrected padding, a block's body line is indented by exactly four spaces per level |
| LegacyWriter.AsWrittenBlockTest | src/code-block-writer.ts:46 | as written, `write("test")` and then a block around `write("inside")` gives three spaces before `inside`, not the four the legacy test expects |
| LegacyWriter.CorrectedBlockTest | dist/tests/code-block-writer-tests.js:42-48 | with the corrected padding the same program gives the expected `"test {\n    inside\n}\n"` |

## Left out

- Callbacks:
  - The callbacks of `block`, `inlineBlock`, `indent`, `withIndentationLevel` and `hangingIndent*` are lists of writer commands.
  - A real closure could read the writer's queries in the middle of its body and branch on them. The command language has no such branch.
- `getStringFromStrOrFunc`: the text function of `conditionalWrite` and `conditionalWriteLine` is taken as the string it would return. It is evaluated only when the condition holds, so nothing observable is lost.
- `iterateLastChars` and `iterateLastCharCodes` with arbitrary callbacks are not modelled. Only the order of the characters they visit is, in `TextBuffer.CharsFromEndReversesText`, plus the two callbacks the writer itself passes (`endsWith` and `wasLastBlock`).
- JavaScript numbers are modelled as unbounded reals and integers:
  - indentation levels are `real`;
  - `Math.round` is `floor(x + 0.5)`;
  - IEEE-754 rounding and precision are not modelled.
- `indentNumberOfSpaces` is a natural number. A negative or fractional option, which `getIndentationText` would render oddly, is not modelled. The `|| 4` fallback for 0 and for an absent value is modelled.
- JavaScript argument coercion is not modelled:
  - `write(null)` and `write(undefined)` through `text || ""`;
  - non-string text arguments;
  - truthy non-boolean conditions.
  Texts are strings and conditions are booleans. The "neither string nor number" indentation argument is modelled as its own case.
- Characters are Dafny `char`s standing for UTF-16 code units. No surrogate pairs or normalisation are considered.
- `unsafeInsert` searches from the front or the back depending on the position. Both searches are modelled and proved to find the position; how fast each is is not modelled.
- Writer.BlankLine: when the text ends in a lone CR and no newline is deferred, the source appends one newline after the CR. The result is a single line break, not a blank line, so the contract promises a blank line only outside that case.
- Writer.BlankLineIfLastNot: promises the blank line only outside the lone-CR case, like `Writer.BlankLine`.
- Writer.ConditionalBlankLine: promises the blank line only outside the lone-CR case, like `Writer.BlankLine`.
- Writer.Write: its own contract states invariant, level and growth for every text. The exact text written is stated, in `Writer.WriteTextLayout`, only for text that opens and closes no string, written outside a string with nothing queued and no newline pending. Text that opens or closes a string mid-write is not covered, because inside a string lines are not indented and the layout no longer applies.
- Writer.WriteIndentingNewLines: states the exact text only when nothing is queued, the writer is outside a string and the text opens and closes no string (any other characters, `{`, `}` on an empty stack, comments, slashes, backslashes and CR included). With a queued level the level can change at the first newline; a text that enters or leaves a string changes which lines are indented. Those cases keep only invariant, level and growth.
- Writer.WriteLineText: has the same limits as `Writer.WriteIndentingNewLines`.
- Writer.Quote: its own contract states invariant, level and growth. The quoted text itself is characterised by `Writer.QuotedTextRoundTrip`, not as the exact buffer contents after the write.
- Commands.ExecIndentBlock: states the line-start outcome and the level, not the exact text of an arbitrary body.
- The legacy writer's `toString` returns its text field, so it needs no member of its own.
- The legacy writer's `_getCurrentIndentationNumberSpaces` is the `PaddingCount` helper.
- The build scripts, declaration files, compiled copies and test files are not part of this model. The legacy test's expected string is cited only as evidence for the finding.

## Findings

| source | as written | input that shows it | evidently intended | confidence | as-written member | corrected member |
|---|---|---|---|---|---|---|
| src/code-block-writer.ts:46 | a new line is padded with `Array(n).join(" ")` where `n = 4 * level`, which is `n - 1` spaces | `write("test")`, then `block` whose body is `write("inside")`: the output is `"test {\n   inside\n}\n"`, three spaces, where the repository's legacy test expects four (dist/tests/code-block-writer-tests.js:43) | `n` spaces, as `Array(n + 1).join(" ")`, the form the current writer uses for its indentation unit (mod.ts:980) | not executed | LegacyWriter.AsWrittenBlockTest | LegacyWriter.CorrectedBlockTest |
