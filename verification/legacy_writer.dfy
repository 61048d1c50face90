/**
  The first writer of the repository (src/code-block-writer.ts): a text, an indentation depth,
  four spaces a level, and a flag saying the last write was a newline. Its padding is
  `Array(n).join(" ")`, which is one space short of `n`; `PaddingRule` selects that rule or
  the corrected one, and the rest of the model is stated for both.
 */
module LegacyWriter {
  import opened StringUtils

  /** How `write` pads a line: as the source computes it, or with the count it evidently means. */
  datatype PaddingRule = AsWritten | Corrected

  datatype Writer = Writer(currentIndentation: nat, text: string, numberSpaces: nat, lastWasNewLine: bool, rule: PaddingRule)

  /** The field initialisers: empty, depth 0, four spaces a level. */
  function New(rule: PaddingRule): (w: Writer)
    ensures w.text == "" && w.currentIndentation == 0 && w.numberSpaces == 4 && !w.lastWasNewLine
  {
    Writer(0, "", 4, false, rule)
  }

  /** `Array(n).join(sep)`: `n` empty elements with `sep` between neighbours. */
  function JoinEmpty(n: nat, sep: string): (r: string)
    ensures n >= 1 ==> |r| == (n - 1) * |sep|
    ensures n == 0 ==> r == ""
  {
    if n <= 1 then "" else JoinEmpty(n - 1, sep) + sep
  }

  /** `n + 1` empty elements joined is `sep` repeated `n` times. */
  lemma {:induction false} JoinEmptyRepeats(n: nat, sep: string)
    ensures JoinEmpty(n + 1, sep) == Repeat(sep, n)
  {
    if n > 0 {
      JoinEmptyRepeats(n - 1, sep);
    }
  }

  /** `_getCurrentIndentationNumberSpaces`. */
  function PaddingCount(w: Writer): nat
  {
    w.currentIndentation * w.numberSpaces
  }

  /** `count` spaces under the given rule: `Array(count).join(" ")` as written, `count` spaces corrected. */
  function PadOf(count: nat, rule: PaddingRule): (r: string)
    ensures rule == Corrected ==> r == Repeat(" ", count)
    ensures rule == AsWritten && count > 0 ==> |r| == count - 1
    ensures forall i :: 0 <= i < |r| ==> r[i] == ' '
  {
    match rule
    case AsWritten =>
      assert count > 0 ==> JoinEmpty(count, " ") == Repeat(" ", count - 1) by {
        if count > 0 {
          JoinEmptyRepeats(count - 1, " ");
        }
      }
      assert forall i :: 0 <= i < |JoinEmpty(count, " ")| ==> JoinEmpty(count, " ")[i] == ' ' by {
        if count > 0 {
          RepeatUniform(" ", count - 1, ' ');
        }
      }
      JoinEmpty(count, " ")
    case Corrected =>
      JoinEmptyRepeats(count, " ");
      RepeatUniform(" ", count, ' ');
      JoinEmpty(count + 1, " ")
  }

  /** The padding `write` puts before the first text of a line. */
  function Padding(w: Writer): (r: string)
    ensures w.rule == Corrected ==> r == Repeat(" ", PaddingCount(w))
    ensures w.rule == AsWritten && PaddingCount(w) > 0 ==> |r| == PaddingCount(w) - 1
    ensures forall i :: 0 <= i < |r| ==> r[i] == ' '
  {
    PadOf(PaddingCount(w), w.rule)
  }

  /** The padding falls one space short of the count on every indented line. */
  lemma PaddingFallsShort(w: Writer)
    requires w.rule == AsWritten && w.currentIndentation > 0 && w.numberSpaces > 0
    ensures |Padding(w)| == PaddingCount(w) - 1 < PaddingCount(w)
  {
    assert PaddingCount(w) >= 1 by {
      assert w.currentIndentation * w.numberSpaces >= w.numberSpaces;
    }
  }

  /** Everything the writer keeps besides its text and the newline flag. */
  predicate SameSetting(w: Writer, r: Writer)
  {
    r.currentIndentation == w.currentIndentation && r.numberSpaces == w.numberSpaces && r.rule == w.rule
  }

  /** `write`: after a newline, pads first unless the text is itself a newline. */
  function Write(w: Writer, str: string): (r: Writer)
    ensures SameSetting(w, r) && !r.lastWasNewLine
    ensures w.text <= r.text
    ensures |r.text| >= |str| && r.text[|r.text| - |str|..] == str
    ensures !w.lastWasNewLine || str == "\n" ==> r.text == w.text + str
    ensures w.lastWasNewLine && str != "\n" ==> r.text == w.text + Padding(w) + str
  {
    var pad := if w.lastWasNewLine && str != "\n" then Padding(w) else "";
    w.(text := w.text + pad + str, lastWasNewLine := false)
  }

  /** `newLine`. */
  function NewLine(w: Writer): (r: Writer)
    ensures SameSetting(w, r) && r.lastWasNewLine
    ensures r.text == w.text + "\n"
  {
    Write(w, "\n").(lastWasNewLine := true)
  }

  /** `newLineIfLastNotNewLine`. */
  function NewLineIfLastNotNewLine(w: Writer): (r: Writer)
    ensures SameSetting(w, r) && r.lastWasNewLine
    ensures w.lastWasNewLine ==> r == w
    ensures !w.lastWasNewLine ==> r.text == w.text + "\n"
  {
    if !w.lastWasNewLine then NewLine(w) else w
  }

  /** `writeLine`: a line of its own, ended by a newline. */
  function WriteLine(w: Writer, str: string): (r: Writer)
    ensures SameSetting(w, r) && r.lastWasNewLine
    ensures w.text <= r.text
    ensures |r.text| >= |str| + 1 && r.text[|r.text| - |str| - 1..] == str + "\n"
    // a newline first unless the last write was one, the padding unless the text is a newline
    ensures r.text == w.text + (if w.lastWasNewLine then "" else "\n") + (if str != "\n" then Padding(w) else "") + str + "\n"
  {
    var lead := if w.lastWasNewLine then "" else "\n";
    var pad := if str != "\n" then Padding(w) else "";
    var w1 := NewLineIfLastNotNewLine(w);
    var w2 := Write(w1, str);
    var r := NewLine(w2);
    assert r.text == w2.text + "\n";
    assert w2.text == w.text + lead + pad + str by {
      assert w1.text == w.text + lead && Padding(w1) == Padding(w);
    }
    assert w.text <= r.text by {
      AppendFour(w.text, lead, pad, str, "\n");
      PrefixOfAppend(w.text, lead + pad + str + "\n");
    }
    SuffixThenAppend(w2.text, str, "\n");
    r
  }

  lemma AppendFour(a: string, b: string, c: string, d: string, e: string)
    ensures a + b + c + d + e == a + (b + c + d + e)
  {
  }

  lemma PrefixOfAppend(a: string, t: string)
    ensures a <= a + t
  {
    assert (a + t)[..|a|] == a;
  }

  lemma PrefixTransitive(a: string, b: string, c: string)
    requires a <= b && b <= c
    ensures a <= c
  {
    assert c[..|a|] == b[..|a|];
  }

  /** A suffix stays a suffix, followed by what is appended after it. */
  lemma SuffixThenAppend(a: string, s: string, t: string)
    requires |s| <= |a| && a[|a| - |s|..] == s
    ensures |a + t| >= |s| + |t| && (a + t)[|a + t| - |s| - |t|..] == s + t
  {
    assert (a + t)[|a| - |s|..] == a[|a| - |s|..] + t;
  }

  /** A call on the writer; `block` takes its callback as a command list. */
  datatype Command =
    | WriteText(str: string)
    | WriteLineText(str: string)
    | NewLineCmd
    | NewLineIfLastNotNewLineCmd
    | Block(body: seq<Command>)

  /** `r` came from `w` by appending, with the depth, width and rule unchanged. */
  predicate Extends(w: Writer, r: Writer)
  {
    SameSetting(w, r) && w.text <= r.text
  }

  lemma ExtendsTransitive(a: Writer, b: Writer, c: Writer)
    requires Extends(a, b) && Extends(b, c)
    ensures Extends(a, c)
  {
  }

  /** Runs one call. Every call gives the depth back as it found it and only appends. */
  function Exec(w: Writer, c: Command): (r: Writer)
    ensures Extends(w, r)
    ensures c.Block? ==> r.lastWasNewLine && |r.text| >= 2 && r.text[|r.text| - 2..] == "}\n"
    decreases c, 1
  {
    match c
    case WriteText(str) => Write(w, str)
    case WriteLineText(str) => WriteLine(w, str)
    case NewLineCmd => NewLine(w)
    case NewLineIfLastNotNewLineCmd => NewLineIfLastNotNewLine(w)
    case Block(body) => ExecBlock(w, body)
  }

  /** `block`: ` {`, one level deeper for the callback on a fresh line, then `}` on a line of its own. */
  function ExecBlock(w: Writer, body: seq<Command>): (r: Writer)
    ensures Extends(w, r)
    ensures r.lastWasNewLine && |r.text| >= 2 && r.text[|r.text| - 2..] == "}\n"
    decreases body, 2
  {
    var inside := ExecAll(OpenBlock(w), body);
    var r := CloseBlock(inside);
    PrefixTransitive(w.text, OpenBlock(w).text, inside.text);
    PrefixTransitive(w.text, inside.text, r.text);
    r
  }

  /** The half of `block` before the callback: ` {`, one level deeper, a newline. */
  function OpenBlock(w: Writer): (r: Writer)
    ensures w.text <= r.text && r.lastWasNewLine
    ensures r.currentIndentation == w.currentIndentation + 1
    ensures r.numberSpaces == w.numberSpaces && r.rule == w.rule
  {
    var w1 := Write(w, " {");
    var r := NewLine(w1.(currentIndentation := w1.currentIndentation + 1));
    PrefixOfAppend(w1.text, "\n");
    PrefixTransitive(w.text, w1.text, r.text);
    r
  }

  /** The half of `block` after the callback: one level out, then `writeLine("}")`. */
  function CloseBlock(w: Writer): (r: Writer)
    requires w.currentIndentation >= 1
    ensures w.text <= r.text && r.lastWasNewLine
    ensures r.currentIndentation == w.currentIndentation - 1
    ensures r.numberSpaces == w.numberSpaces && r.rule == w.rule
    ensures |r.text| >= 2 && r.text[|r.text| - 2..] == "}\n"
  {
    var r := WriteLine(w.(currentIndentation := w.currentIndentation - 1), "}");
    assert "}" + "\n" == "}\n";
    r
  }

  /** Runs a callback body in order. */
  function ExecAll(w: Writer, cs: seq<Command>): (r: Writer)
    ensures Extends(w, r)
    decreases cs, 0
  {
    if |cs| == 0 then w
    else
      var w1 := Exec(w, cs[0]);
      var r := ExecAll(w1, cs[1..]);
      ExtendsTransitive(w, w1, r);
      r
  }

  /**
    A block around one write, after text on the current line: ` {`, the text on the next line
    padded for one level deeper, then `}` padded for the current level, and a newline.
   */
  lemma BlockOfOneWrite(w: Writer, str: string)
    requires !w.lastWasNewLine && str != "\n"
    ensures Exec(w, Block([WriteText(str)])).text
      == w.text + " {" + "\n" + Padding(w.(currentIndentation := w.currentIndentation + 1)) + str + "\n" + Padding(w) + "}" + "\n"
  {
    var inner := w.(currentIndentation := w.currentIndentation + 1);
    var w2 := OpenBlock(w);
    assert w2.text == w.text + " {" + "\n";
    assert Padding(w2) == Padding(inner) by {
      assert w2.currentIndentation == inner.currentIndentation;
      assert w2.numberSpaces == inner.numberSpaces && w2.rule == inner.rule;
    }
    var w3 := Write(w2, str);
    assert w3.text == w.text + " {" + "\n" + Padding(inner) + str;
    ExecAllSingle(w2, WriteText(str));
    CloseAfterWrite(w3.(currentIndentation := w3.currentIndentation - 1), w);
    assert Exec(w, Block([WriteText(str)])) == CloseBlock(w3);
  }

  /** A body of one command runs just that command. */
  lemma ExecAllSingle(w: Writer, c: Command)
    ensures ExecAll(w, [c]) == Exec(w, c)
  {
    assert [c][1..] == [];
  }

  /** The `writeLine("}")` that ends a block whose body did not end its line. */
  lemma CloseAfterWrite(w: Writer, outer: Writer)
    requires !w.lastWasNewLine && w.currentIndentation == outer.currentIndentation
    requires w.numberSpaces == outer.numberSpaces && w.rule == outer.rule
    ensures WriteLine(w, "}").text == w.text + "\n" + Padding(outer) + "}" + "\n"
  {
    var w1 := NewLine(w);
    assert Padding(w1) == Padding(outer);
  }

  /** With the corrected rule, the block's line gets four spaces per level, the count the tests expect. */
  lemma CorrectedBlockOfOneWrite(w: Writer, str: string)
    requires !w.lastWasNewLine && str != "\n" && w.rule == Corrected && w.numberSpaces == 4
    ensures Exec(w, Block([WriteText(str)])).text
      == w.text + " {" + "\n" + Repeat(" ", 4 * (w.currentIndentation + 1)) + str + "\n" + Repeat(" ", 4 * w.currentIndentation) + "}" + "\n"
  {
    BlockOfOneWrite(w, str);
    var inner := w.(currentIndentation := w.currentIndentation + 1);
    assert PaddingCount(inner) == 4 * (w.currentIndentation + 1);
    assert Padding(inner) == Repeat(" ", 4 * (w.currentIndentation + 1));
    assert PaddingCount(w) == 4 * w.currentIndentation;
    assert Padding(w) == Repeat(" ", 4 * w.currentIndentation);
  }

  /** `write("test").block(() => write("inside"))` from a fresh writer. */
  function FirstBlockTest(rule: PaddingRule): (r: string)
    ensures r == Exec(Write(New(rule), "test"), Block([WriteText("inside")])).text
  {
    ExecAll(New(rule), [WriteText("test"), Block([WriteText("inside")])]).text
  }

  lemma FirstBlockTestUnfolds(rule: PaddingRule)
    ensures FirstBlockTest(rule)
      == "test" + " {" + "\n" + Padding(Writer(1, "test", 4, false, rule)) + "inside" + "\n" + Padding(Writer(0, "test", 4, false, rule)) + "}" + "\n"
  {
    var w := Write(New(rule), "test");
    assert w == Writer(0, "test", 4, false, rule);
    BlockOfOneWrite(w, "inside");
  }

  /** The first block test of the repository, run on the writer as written: three spaces, not four. */
  lemma AsWrittenBlockTest()
    ensures FirstBlockTest(AsWritten) == "test {\n   inside\n}\n"
    ensures FirstBlockTest(AsWritten) != "test {\n    inside\n}\n"
  {
    FirstBlockTestUnfolds(AsWritten);
    PaddingsOfTest(AsWritten, "   ");
    Spelled("   ");
    assert |"test {\n   inside\n}\n"| == 19;
  }

  /** The same test on the corrected writer gives the expected text. */
  lemma CorrectedBlockTest()
    ensures FirstBlockTest(Corrected) == "test {\n    inside\n}\n"
  {
    FirstBlockTestUnfolds(Corrected);
    PaddingsOfTest(Corrected, "    ");
    Spelled("    ");
  }

  lemma PaddingsOfTest(rule: PaddingRule, pad: string)
    requires pad == (if rule == AsWritten then "   " else "    ")
    ensures Padding(Writer(1, "test", 4, false, rule)) == pad
    ensures Padding(Writer(0, "test", 4, false, rule)) == ""
  {
    JoinEmptyRepeats(3, " ");
    assert Repeat(" ", 3) == "   ";
    assert Repeat(" ", 4) == "    ";
  }

  lemma Spelled(pad: string)
    requires pad == "   " || pad == "    "
    ensures "test" + " {" + "\n" + pad + "inside" + "\n" + "" + "}" + "\n" == "test {\n" + pad + "inside\n}\n"
    ensures pad == "    " ==> "test {\n" + pad + "inside\n}\n" == "test {\n    inside\n}\n"
    ensures pad == "   " ==> "test {\n" + pad + "inside\n}\n" == "test {\n   inside\n}\n"
  {
  }
}
