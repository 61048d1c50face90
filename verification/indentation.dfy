/**
  The writer's indentation controller: reading a level from a count or from whitespace,
  the current/queued level state with its one-shot queue, and the text written at the start
  of a line for a (possibly fractional) level.
 */
module Indentation {
  import opened Results
  import opened StringUtils

  /** The `countOrText` argument of the level setters: a number, a string, or anything else. */
  datatype IndentArg = Count(n: real) | Whitespace(text: string) | OtherArg

  /** The three indentation fields of the writer, saved and restored together. */
  datatype IndentState = IndentState(current: real, queued: Option<real>, queuedOnlyIfNotBlock: bool)

  const Initial := IndentState(0.0, None, false)

  /** No level the writer holds is below zero. */
  predicate NonNegative(st: IndentState) {
    st.current >= 0.0 && (st.queued.Some? ==> st.queued.value >= 0.0)
  }

  /** Occurrences of `c` in `s`. */
  function CountChar(s: string, c: char): nat
  {
    if |s| == 0 then 0
    else CountChar(s[..|s| - 1], c) + (if s[|s| - 1] == c then 1 else 0)
  }

  /** The pattern `^[ \t]*$`: empty, or spaces and tabs only. */
  predicate IsSpacesOrTabs(s: string) {
    forall i :: 0 <= i < |s| ==> s[i] == ' ' || s[i] == '\t'
  }

  /** Spaces and tabs together never outnumber the characters, and fill the string exactly when it is whitespace only. */
  lemma {:induction false} SpacesAndTabsCover(s: string)
    ensures CountChar(s, ' ') + CountChar(s, '\t') <= |s|
    ensures IsSpacesOrTabs(s) <==> CountChar(s, ' ') + CountChar(s, '\t') == |s|
  {
    if |s| > 0 {
      var init := s[..|s| - 1];
      SpacesAndTabsCover(init);
      if IsSpacesOrTabs(init) {
        assert IsSpacesOrTabs(s) <==> s[|s| - 1] == ' ' || s[|s| - 1] == '\t';
      } else {
        var i :| 0 <= i < |init| && init[i] != ' ' && init[i] != '\t';
        assert s[i] == init[i];
      }
    }
  }

  /** A string made of one character counts that character once per position and no other. */
  lemma {:induction false} CountUniform(s: string, c: char, d: char)
    requires forall i :: 0 <= i < |s| ==> s[i] == c
    ensures CountChar(s, c) == |s|
    ensures d != c ==> CountChar(s, d) == 0
  {
    if |s| > 0 {
      CountUniform(s[..|s| - 1], c, d);
    }
  }

  /** `getSpacesAndTabsCount`: one pass over the string counting spaces and tabs. */
  method GetSpacesAndTabsCount(s: string) returns (spacesCount: nat, tabsCount: nat)
    ensures spacesCount == CountChar(s, ' ')
    ensures tabsCount == CountChar(s, '\t')
    ensures spacesCount + tabsCount <= |s|
    ensures IsSpacesOrTabs(s) <==> spacesCount + tabsCount == |s|
  {
    spacesCount, tabsCount := 0, 0;
    var i := 0;
    while i < |s|
      invariant 0 <= i <= |s|
      invariant spacesCount == CountChar(s[..i], ' ')
      invariant tabsCount == CountChar(s[..i], '\t')
    {
      assert s[..i + 1][..i] == s[..i];
      if s[i] == ' ' {
        spacesCount := spacesCount + 1;
      } else if s[i] == '\t' {
        tabsCount := tabsCount + 1;
      }
      i := i + 1;
    }
    assert s[..i] == s;
    SpacesAndTabsCover(s);
  }

  /**
    `_getIndentationLevelFromArg`: a number is taken as the level and a whitespace string is
    measured as one level per tab plus one level per `indentNumberOfSpaces` spaces.
   */
  function LevelFromArg(arg: IndentArg, indentNumberOfSpaces: nat): (r: Result<real, Error>)
    requires indentNumberOfSpaces > 0
    ensures r.Ok? ==> r.value >= 0.0
    ensures arg.Count? ==> (r.Err? <==> arg.n < 0.0)
    ensures arg.Count? && r.Ok? ==> r.value == arg.n
    ensures arg.Count? && r.Err? ==> r.error == NegativeIndentation
    ensures arg.Whitespace? ==> (r.Err? <==> !IsSpacesOrTabs(arg.text))
    ensures arg.Whitespace? && r.Err? ==> r.error == NotSpacesOrTabs
    ensures arg.Whitespace? && r.Ok? ==> r.value <= |arg.text| as real
    ensures arg.Whitespace? && r.Ok? ==>
      r.value == CountChar(arg.text, '\t') as real + CountChar(arg.text, ' ') as real / indentNumberOfSpaces as real
    ensures arg.OtherArg? ==> r == Err(NotStringOrNumber)
  {
    match arg
    case Count(n) =>
      if n < 0.0 then Err(NegativeIndentation) else Ok(n)
    case Whitespace(text) =>
      if !IsSpacesOrTabs(text) then Err(NotSpacesOrTabs)
      else
        var spaces := CountChar(text, ' ');
        var tabs := CountChar(text, '\t');
        SpacesAndTabsCover(text);
        DivideAtMost(spaces as real, indentNumberOfSpaces as real);
        Ok(tabs as real + spaces as real / indentNumberOfSpaces as real)
    case OtherArg =>
      Err(NotStringOrNumber)
  }

  /** Tabs only: one level per tab. */
  lemma LevelOfTabs(t: string, indentNumberOfSpaces: nat)
    requires indentNumberOfSpaces > 0
    requires forall i :: 0 <= i < |t| ==> t[i] == '\t'
    ensures LevelFromArg(Whitespace(t), indentNumberOfSpaces) == Ok(|t| as real)
  {
    CountUniform(t, '\t', ' ');
  }

  /** Spaces only: `indentNumberOfSpaces` spaces per level, fractions included. */
  lemma LevelOfSpaces(t: string, indentNumberOfSpaces: nat)
    requires indentNumberOfSpaces > 0
    requires forall i :: 0 <= i < |t| ==> t[i] == ' '
    ensures LevelFromArg(Whitespace(t), indentNumberOfSpaces) == Ok(|t| as real / indentNumberOfSpaces as real)
  {
    CountUniform(t, ' ', '\t');
  }

  /** Counting is additive: the occurrences in `a + b` are those in `a` and those in `b`. */
  lemma {:induction false} CountAppend(a: string, b: string, c: char)
    ensures CountChar(a + b, c) == CountChar(a, c) + CountChar(b, c)
    decreases |b|
  {
    if |b| == 0 {
      assert a + b == a;
    } else {
      var b0 := b[..|b| - 1];
      assert (a + b)[..|a + b| - 1] == a + b0;
      assert (a + b)[|a + b| - 1] == b[|b| - 1];
      CountAppend(a, b0, c);
    }
  }

  /**
    The level of whitespace is additive: a string read as a level is the level of its first
    part plus the level of the rest, so mixed tabs and spaces add up (`"\t  "` at width 4 is 1.5).
   */
  lemma LevelAppend(a: string, b: string, indentNumberOfSpaces: nat)
    requires indentNumberOfSpaces > 0 && IsSpacesOrTabs(a) && IsSpacesOrTabs(b)
    ensures LevelFromArg(Whitespace(a + b), indentNumberOfSpaces).Ok?
    ensures LevelFromArg(Whitespace(a + b), indentNumberOfSpaces).value
      == LevelFromArg(Whitespace(a), indentNumberOfSpaces).value + LevelFromArg(Whitespace(b), indentNumberOfSpaces).value
  {
    assert IsSpacesOrTabs(a + b) by {
      forall i | 0 <= i < |a + b|
        ensures (a + b)[i] == ' ' || (a + b)[i] == '\t'
      {
        if i >= |a| { assert (a + b)[i] == b[i - |a|]; }
      }
    }
    CountAppend(a, b, ' ');
    CountAppend(a, b, '\t');
    SumOfLevels(CountChar(a, '\t') as real, CountChar(b, '\t') as real,
      CountChar(a, ' ') as real, CountChar(b, ' ') as real, indentNumberOfSpaces as real);
  }

  lemma SumOfLevels(ta: real, tb: real, sa: real, sb: real, n: real)
    requires n > 0.0
    ensures (ta + tb) + (sa + sb) / n == (ta + sa / n) + (tb + sb / n)
  {
    assert (sa + sb) / n == sa / n + sb / n;
  }

  /** One tab and two spaces at four spaces per level: one level from the tab, half a level from the spaces. */
  lemma MixedLevel()
    ensures LevelFromArg(Whitespace("\t  "), 4) == Ok(1.5)
  {
    LevelOfTabs("\t", 4);
    LevelOfSpaces("  ", 4);
    assert "\t  " == "\t" + "  ";
    LevelAppend("\t", "  ", 4);
  }

  /** `getIndentationText`: one tab, or `numberSpaces` spaces. */
  function IndentationText(useTabs: bool, numberSpaces: nat): (r: string)
    ensures useTabs ==> r == "\t"
    ensures !useTabs ==> |r| == numberSpaces
    ensures !useTabs ==> forall i :: 0 <= i < |r| ==> r[i] == ' '
  {
    if useTabs then "\t"
    else
      RepeatUniform(" ", numberSpaces, ' ');
      Repeat(" ", numberSpaces)
  }

  /** `setIndentationLevel`: the current level becomes the argument's level. */
  function SetLevel(st: IndentState, arg: IndentArg, indentNumberOfSpaces: nat): (r: Result<IndentState, Error>)
    requires indentNumberOfSpaces > 0
    ensures r.Err? <==> LevelFromArg(arg, indentNumberOfSpaces).Err?
    ensures r.Ok? ==> r.value == st.(current := LevelFromArg(arg, indentNumberOfSpaces).value)
    ensures r.Ok? && NonNegative(st) ==> NonNegative(r.value)
  {
    var level :- LevelFromArg(arg, indentNumberOfSpaces);
    Ok(st.(current := level))
  }

  /** `queueIndentationLevel`: the level is queued for the next line and the only-if-not-block mark is cleared. */
  function QueueLevel(st: IndentState, arg: IndentArg, indentNumberOfSpaces: nat): (r: Result<IndentState, Error>)
    requires indentNumberOfSpaces > 0
    ensures r.Err? <==> LevelFromArg(arg, indentNumberOfSpaces).Err?
    ensures r.Ok? ==> r.value.current == st.current
    ensures r.Ok? ==> r.value.queued == Some(LevelFromArg(arg, indentNumberOfSpaces).value)
    ensures r.Ok? ==> !r.value.queuedOnlyIfNotBlock
    ensures r.Ok? && NonNegative(st) ==> NonNegative(r.value)
  {
    var level :- LevelFromArg(arg, indentNumberOfSpaces);
    Ok(st.(queued := Some(level), queuedOnlyIfNotBlock := false))
  }

  /**
    The set-up step of `hangingIndent` (`unlessBlock` false) and `hangingIndentUnlessBlock`
    (`unlessBlock` true): queue one level deeper than the current one.
   */
  function QueueHanging(st: IndentState, unlessBlock: bool, indentNumberOfSpaces: nat): (r: Result<IndentState, Error>)
    requires indentNumberOfSpaces > 0
    ensures st.current >= 0.0 ==> r.Ok?
    ensures r.Ok? ==> r.value.current == st.current && r.value.queued == Some(st.current + 1.0)
    ensures r.Ok? ==> r.value.queuedOnlyIfNotBlock == unlessBlock
  {
    var queuedSt :- QueueLevel(st, Count(st.current + 1.0), indentNumberOfSpaces);
    Ok(queuedSt.(queuedOnlyIfNotBlock := unlessBlock))
  }

  /**
    `_dequeueQueuedIndentation`, run after every newline: a queued level becomes current,
    except that an only-if-not-block level is dropped when the line just ended opened a block.
    `wasLastBlock` is that test, made on the text by the caller.
   */
  function Dequeue(st: IndentState, wasLastBlock: bool): (r: IndentState)
    ensures r.queued == None
    ensures st.queued == None ==> r == st
    ensures st.queued.Some? && st.queuedOnlyIfNotBlock && wasLastBlock
      ==> r.current == st.current && !r.queuedOnlyIfNotBlock
    ensures st.queued.Some? && !(st.queuedOnlyIfNotBlock && wasLastBlock)
      ==> r.current == st.queued.value && r.queuedOnlyIfNotBlock == st.queuedOnlyIfNotBlock
    ensures NonNegative(st) ==> NonNegative(r)
  {
    match st.queued
    case None => st
    case Some(level) =>
      if st.queuedOnlyIfNotBlock && wasLastBlock then
        st.(queued := None, queuedOnlyIfNotBlock := false)
      else
        st.(current := level, queued := None)
  }

  /** A queued level takes effect at most once: a second newline finds nothing queued. */
  lemma DequeueOnce(st: IndentState, first: bool, second: bool)
    ensures Dequeue(Dequeue(st, first), second) == Dequeue(st, first)
  {
  }

  /** A hanging indent lands on the line after the next newline, unless it was for-non-blocks and that line opened a block. */
  lemma HangingIndentLands(st: IndentState, unlessBlock: bool, wasLastBlock: bool, indentNumberOfSpaces: nat)
    requires indentNumberOfSpaces > 0 && st.current >= 0.0
    ensures QueueHanging(st, unlessBlock, indentNumberOfSpaces).Ok?
    ensures var after := Dequeue(QueueHanging(st, unlessBlock, indentNumberOfSpaces).value, wasLastBlock);
      after.current == if unlessBlock && wasLastBlock then st.current else st.current + 1.0
  {
  }

  /** `Math.round` on a finite number: halves round up. */
  function Round(x: real): (r: int)
    ensures x - 0.5 < r as real <= x + 0.5
  {
    (x + 0.5).Floor
  }

  /** The text `_writeIndentation` writes for whole levels: the unit repeated `floor(level)` times. */
  function WholeUnits(level: real, text: string): (r: string)
    requires level >= 0.0
    ensures |r| == level.Floor * |text|
  {
    Repeat(text, level.Floor)
  }

  /** The fraction of a level beyond its whole levels. */
  function Overflow(level: real): (f: real)
    ensures 0.0 <= f < 1.0
    ensures level == level.Floor as real + f
  {
    level - level.Floor as real
  }

  /** How many characters of a `len`-character unit stand for the fraction `f` of a level: `len * f`, rounded. */
  function Portion(len: nat, f: real): (p: int)
    requires 0.0 <= f < 1.0
    ensures 0 <= p <= len
    ensures len as real * f - 0.5 < p as real <= len as real * f + 0.5
  {
    ScaleFraction(len as real, f);
    Round(len as real * f)
  }

  /**
    The text `_writeIndentation` writes for the fraction of a level: with tabs, one more tab
    above a half; with spaces, the rounded share of the unit's spaces.
   */
  function PartialUnit(level: real, text: string, useTabs: bool): (r: string)
    requires level >= 0.0
    ensures |r| <= |text|
    ensures useTabs ==> r == (if Overflow(level) > 0.5 then text else "")
    ensures !useTabs ==> r == text[..Portion(|text|, Overflow(level))]
  {
    var overflow := Overflow(level);
    if useTabs then
      (if overflow > 0.5 then text else "")
    else
      text[..Portion(|text|, overflow)]
  }

  /** All the indentation a line starts with. */
  function Render(level: real, text: string, useTabs: bool): string
    requires level >= 0.0
  {
    WholeUnits(level, text) + PartialUnit(level, text, useTabs)
  }

  /** The indentation for a level is made of the unit's one character. */
  lemma RenderUniform(level: real, useTabs: bool, numberSpaces: nat)
    requires level >= 0.0
    ensures var r := Render(level, IndentationText(useTabs, numberSpaces), useTabs);
      forall i :: 0 <= i < |r| ==> r[i] == (if useTabs then '\t' else ' ')
  {
    var text := IndentationText(useTabs, numberSpaces);
    var c := if useTabs then '\t' else ' ';
    RepeatUniform(text, level.Floor, c);
    var whole := WholeUnits(level, text);
    var part := PartialUnit(level, text, useTabs);
    assert forall i :: 0 <= i < |part| ==> part[i] == c;
    var r := whole + part;
    forall i | 0 <= i < |r|
      ensures r[i] == c
    {
      if i < |whole| {
        assert r[i] == whole[i];
      } else {
        assert r[i] == part[i - |whole|];
      }
    }
  }

  /** Indentation is whitespace, so it always reads back as a level. */
  lemma RenderIsWhitespace(level: real, useTabs: bool, numberSpaces: nat)
    requires level >= 0.0
    ensures IsSpacesOrTabs(Render(level, IndentationText(useTabs, numberSpaces), useTabs))
  {
    RenderUniform(level, useTabs, numberSpaces);
  }

  /** A whole level is written exactly: reading its indentation back gives the level. */
  lemma RenderWholeLevelRoundTrip(k: nat, useTabs: bool, indentNumberOfSpaces: nat)
    requires indentNumberOfSpaces > 0
    ensures LevelFromArg(Whitespace(Render(k as real, IndentationText(useTabs, indentNumberOfSpaces), useTabs)),
                         indentNumberOfSpaces) == Ok(k as real)
  {
    var n := indentNumberOfSpaces;
    var text := IndentationText(useTabs, n);
    var rendered := Render(k as real, text, useTabs);
    assert (k as real).Floor == k;
    assert |PartialUnit(k as real, text, useTabs)| == 0;
    assert |rendered| == k * |text|;
    RenderUniform(k as real, useTabs, n);
    if useTabs {
      LevelOfTabs(rendered, n);
    } else {
      LevelOfSpaces(rendered, n);
      assert |rendered| as real == k as real * n as real + 0.0;
      DivideSplit(k as real, 0.0, n as real);
      assert 0.0 / n as real == 0.0;
      assert |rendered| as real / n as real == k as real;
      assert LevelFromArg(Whitespace(rendered), n) == Ok(k as real);
    }
  }

  /** With spaces, a fractional level is written to the nearest space: it reads back within half a space. */
  lemma RenderSpacesApproximates(level: real, indentNumberOfSpaces: nat)
    requires level >= 0.0 && indentNumberOfSpaces > 0
    ensures var back := LevelFromArg(Whitespace(Render(level, IndentationText(false, indentNumberOfSpaces), false)),
                                     indentNumberOfSpaces);
      back.Ok?
      && -0.5 / indentNumberOfSpaces as real < back.value - level <= 0.5 / indentNumberOfSpaces as real
  {
    var n := indentNumberOfSpaces;
    var text := IndentationText(false, n);
    var whole := level.Floor;
    var f := Overflow(level);
    var portion := Portion(n, f);
    var rendered := Render(level, text, false);
    RenderUniform(level, false, n);
    LevelOfSpaces(rendered, n);
    assert |rendered| == whole * n + portion;
    SpacesBackWithin(whole, portion, n, f);
  }

  /** The arithmetic of the spaces case: `whole` levels and `portion` spaces read back within half a space of `whole + f`. */
  lemma SpacesBackWithin(whole: nat, portion: nat, n: nat, f: real)
    requires n > 0
    requires n as real * f - 0.5 < portion as real <= n as real * f + 0.5
    ensures var back := (whole * n + portion) as real / n as real;
      -0.5 / n as real < back - (whole as real + f) <= 0.5 / n as real
  {
    assert (whole * n + portion) as real == whole as real * n as real + portion as real;
    DivideSplit(whole as real, portion as real, n as real);
    DivideBounds(portion as real - n as real * f, n as real);
    DivideSplit(-f, portion as real, n as real);
    assert portion as real - n as real * f == -f * n as real + portion as real;
  }

  /** With tabs, a fractional level is written as a whole number of tabs, at most half a level away. */
  lemma RenderTabsApproximates(level: real, indentNumberOfSpaces: nat)
    requires level >= 0.0 && indentNumberOfSpaces > 0
    ensures var back := LevelFromArg(Whitespace(Render(level, "\t", true)), indentNumberOfSpaces);
      back.Ok?
      && back.value.Floor as real == back.value
      && -0.5 <= back.value - level < 0.5
  {
    var whole := level.Floor;
    var rendered := Render(level, "\t", true);
    var tabs := if Overflow(level) > 0.5 then whole + 1 else whole;
    RenderUniform(level, true, indentNumberOfSpaces);
    assert |rendered| == tabs;
    LevelOfTabs(rendered, indentNumberOfSpaces);
  }

  lemma DivideAtMost(x: real, n: real)
    requires x >= 0.0 && n >= 1.0
    ensures 0.0 <= x / n <= x
  {
    var q := x / n;
    assert q * n == x;
  }

  lemma ScaleFraction(t: real, f: real)
    requires t >= 0.0 && 0.0 <= f < 1.0
    ensures 0.0 <= t * f <= t
  {
  }

  lemma DivideBounds(x: real, n: real)
    requires n > 0.0 && -0.5 < x <= 0.5
    ensures -0.5 / n < x / n <= 0.5 / n
  {
    var q := x / n;
    assert q * n == x;
    var h := 0.5 / n;
    assert h * n == 0.5;
  }

  lemma DivideSplit(a: real, b: real, n: real)
    requires n > 0.0
    ensures (a * n + b) / n == a + b / n
  {
    var q := b / n;
    assert q * n == b;
    assert (a + q) * n == a * n + b;
  }
}
