/**
  The writer's output: an append-only list of fragments (`_texts`) with a cached total
  length (`_length`). Every query the writer makes about what it has already emitted reads
  the fragments from the back, without joining them.
 */
module TextBuffer {
  import opened Results

  /** The text the fragments stand for, built from the back so that the last fragment peels off in one step. */
  function Concat(texts: seq<string>): string
  {
    if |texts| == 0 then "" else Concat(texts[..|texts| - 1]) + texts[|texts| - 1]
  }

  lemma {:induction false} ConcatAppend(a: seq<string>, b: seq<string>)
    ensures Concat(a + b) == Concat(a) + Concat(b)
    decreases |b|
  {
    if |b| == 0 {
      assert a + b == a;
    } else {
      assert (a + b)[..|a + b| - 1] == a + b[..|b| - 1];
      ConcatAppend(a, b[..|b| - 1]);
    }
  }

  lemma ConcatPrefixStep(texts: seq<string>, i: nat)
    requires i < |texts|
    ensures Concat(texts[..i + 1]) == Concat(texts[..i]) + texts[i]
  {
    assert texts[..i + 1][..i] == texts[..i];
  }

  datatype Buffer = Buffer(texts: seq<string>, length: int)

  /** The logical content of the buffer. */
  function Text(b: Buffer): string
  {
    Concat(b.texts)
  }

  /** The cached length agrees with the content: the invariant of `_length`. */
  predicate Valid(b: Buffer)
  {
    b.length == |Text(b)|
  }

  const Empty: Buffer := Buffer([], 0)

  /** `_internalWrite`: appends a non-empty fragment and grows the cached length; an empty text is dropped. */
  function Append(b: Buffer, text: string): (r: Buffer)
    ensures Text(r) == Text(b) + text
    ensures r.length == b.length + |text|
    ensures Valid(b) ==> Valid(r)
    ensures |text| == 0 ==> r == b
    ensures |text| > 0 ==> r.texts == b.texts + [text]
  {
    if |text| == 0 then b
    else
      var texts := b.texts + [text];
      assert texts[..|texts| - 1] == b.texts;
      Buffer(texts, b.length + |text|)
  }

  /** The fragment walk of `_getLastCharCodeWithOffset`, once the offset is known to be in range. */
  function LastCharIn(texts: seq<string>, offset: nat): Option<char>
  {
    if |texts| == 0 then None
    else
      var t := texts[|texts| - 1];
      if offset >= |t| then LastCharIn(texts[..|texts| - 1], offset - |t|)
      else Some(t[|t| - 1 - offset])
  }

  lemma {:induction false} LastCharInConcat(texts: seq<string>, offset: nat)
    ensures offset < |Concat(texts)| ==> LastCharIn(texts, offset) == Some(Concat(texts)[|Concat(texts)| - 1 - offset])
    ensures offset >= |Concat(texts)| ==> LastCharIn(texts, offset) == None
  {
    if |texts| > 0 {
      var t := texts[|texts| - 1];
      if offset >= |t| {
        LastCharInConcat(texts[..|texts| - 1], offset - |t|);
      }
    }
  }

  /** `_getLastCharCodeWithOffset`: the character `offset` places before the end, or none. */
  function LastCharWithOffset(b: Buffer, offset: int): (r: Option<char>)
    ensures offset < 0 || offset >= b.length ==> r == None
    ensures Valid(b) && 0 <= offset < b.length ==> r == Some(Text(b)[b.length - 1 - offset])
  {
    if offset >= b.length || offset < 0 then None
    else
      LastCharInConcat(b.texts, offset);
      LastCharIn(b.texts, offset)
  }

  /** `getLastChar`. */
  function LastChar(b: Buffer): Option<char>
  {
    LastCharWithOffset(b, 0)
  }

  /** `isLastNewLine`: the last character is a line feed or a carriage return. */
  predicate IsLastNewLine(b: Buffer)
  {
    LastChar(b) == Some('\n') || LastChar(b) == Some('\r')
  }

  predicate IsLastSpace(b: Buffer)
  {
    LastChar(b) == Some(' ')
  }

  predicate IsLastTab(b: Buffer)
  {
    LastChar(b) == Some('\t')
  }

  function Reverse(s: string): (r: string)
    ensures |r| == |s|
    ensures forall k :: 0 <= k < |s| ==> r[k] == s[|s| - 1 - k]
  {
    if |s| == 0 then "" else [s[|s| - 1]] + Reverse(s[..|s| - 1])
  }

  /**
    The characters `iterateLastCharCodes` hands to its callback, in order: fragments from the
    last to the first, each read from its end. The k-th character handed over has index
    `length - 1 - k`.
   */
  function CharsFromEnd(texts: seq<string>): string
  {
    if |texts| == 0 then "" else Reverse(texts[|texts| - 1]) + CharsFromEnd(texts[..|texts| - 1])
  }

  /** Reverse iteration over the fragments visits exactly the buffer's text, last character first. */
  lemma {:induction false} CharsFromEndReversesText(texts: seq<string>)
    ensures CharsFromEnd(texts) == Reverse(Concat(texts))
  {
    if |texts| > 0 {
      var init := texts[..|texts| - 1];
      var t := texts[|texts| - 1];
      CharsFromEndReversesText(init);
      ReverseAppend(Concat(init), t);
    }
  }

  lemma ReverseAppend(x: string, t: string)
    ensures Reverse(x + t) == Reverse(t) + Reverse(x)
  {
    var l := Reverse(x + t);
    var r := Reverse(t) + Reverse(x);
    forall k | 0 <= k < |l|
      ensures l[k] == r[k]
    {
      if k < |t| {
        assert r[k] == Reverse(t)[k];
      } else {
        assert r[k] == Reverse(x)[k - |t|];
      }
    }
  }

  predicate IsLineBreak(c: char)
  {
    c == '\n' || c == '\r'
  }

  predicate OnlyLineBreaks(s: string)
  {
    forall i :: 0 <= i < |s| ==> IsLineBreak(s[i])
  }

  /** Number of line feeds in `s`. */
  function NewLineCount(s: string): nat
  {
    if |s| == 0 then 0 else NewLineCount(s[..|s| - 1]) + (if s[|s| - 1] == '\n' then 1 else 0)
  }

  /** Peeling the last character off a suffix: the shape every backwards-scan proof below uses. */
  lemma SuffixPeel(s: string, k: nat)
    requires k < |s|
    ensures s[k..] == s[..|s| - 1][k..] + [s[|s| - 1]]
    ensures s[k..][..|s[k..]| - 1] == s[..|s| - 1][k..]
    ensures NewLineCount(s[k..]) == NewLineCount(s[..|s| - 1][k..]) + (if s[|s| - 1] == '\n' then 1 else 0)
    ensures OnlyLineBreaks(s[k..]) <==> OnlyLineBreaks(s[..|s| - 1][k..]) && IsLineBreak(s[|s| - 1])
  {
    assert s[k..][..|s[k..]| - 1] == s[..|s| - 1][k..];
  }

  /** The backwards scan of `isLastBlankLine`: stop at the second line feed, give up at anything but CR or LF. */
  function BlankLineScan(s: string, found: nat): bool
  {
    if |s| == 0 then false
    else
      var c := s[|s| - 1];
      if c == '\n' then (if found + 1 == 2 then true else BlankLineScan(s[..|s| - 1], found + 1))
      else if c != '\r' then false
      else BlankLineScan(s[..|s| - 1], found)
  }

  /** The text ends in a run of CR/LF characters holding at least two line feeds. */
  ghost predicate EndsWithBlankLine(s: string)
  {
    exists k :: 0 <= k <= |s| && OnlyLineBreaks(s[k..]) && NewLineCount(s[k..]) >= 2
  }

  lemma {:induction false} BlankLineScanSpec(s: string, found: nat)
    requires found < 2
    ensures BlankLineScan(s, found) <==>
      exists k :: 0 <= k <= |s| && OnlyLineBreaks(s[k..]) && found + NewLineCount(s[k..]) >= 2
  {
    if |s| == 0 {
      assert forall k :: 0 <= k <= |s| ==> s[k..] == "";
    } else {
      var p := s[..|s| - 1];
      var c := s[|s| - 1];
      forall k | 0 <= k < |s|
        ensures NewLineCount(s[k..]) == NewLineCount(p[k..]) + (if c == '\n' then 1 else 0)
        ensures OnlyLineBreaks(s[k..]) <==> OnlyLineBreaks(p[k..]) && IsLineBreak(c)
      {
        SuffixPeel(s, k);
      }
      assert s[|s|..] == "";
      if c == '\n' && found == 1 {
        assert OnlyLineBreaks(s[|s| - 1..]) && found + NewLineCount(s[|s| - 1..]) >= 2 by {
          assert p[|s| - 1..] == "";
        }
      } else if c == '\n' {
        BlankLineScanSpec(p, found + 1);
        assert forall k :: 0 <= k <= |p| ==> p[k..] == s[..|s| - 1][k..];
      } else if c == '\r' {
        BlankLineScanSpec(p, found);
      }
    }
  }

  /** `isLastBlankLine`. */
  predicate IsLastBlankLine(b: Buffer)
  {
    BlankLineScan(Text(b), 0)
  }

  lemma IsLastBlankLineSpec(b: Buffer)
    ensures IsLastBlankLine(b) <==> EndsWithBlankLine(Text(b))
  {
    BlankLineScanSpec(Text(b), 0);
  }

  /**
    The callback of `endsWith` applied along the backwards iteration: the k-th character read
    (k = `matched`) is compared with `text[|text| - 1 - k]`; a position before the start of
    `text` compares unequal, and reaching index 0 of `text` answers true.
   */
  function EndsWithScan(s: string, text: string, matched: nat): bool
  {
    if |s| == 0 then false
    else
      var textIndex := |text| - 1 - matched;
      if textIndex < 0 || text[textIndex] != s[|s| - 1] then false
      else if textIndex == 0 then true
      else EndsWithScan(s[..|s| - 1], text, matched + 1)
  }

  lemma {:induction false} EndsWithScanSpec(s: string, text: string, matched: nat)
    ensures EndsWithScan(s, text, matched) <==>
      var rest := |text| - matched;
      1 <= rest <= |s| && s[|s| - rest..] == text[..rest]
  {
    var rest := |text| - matched;
    if |s| > 0 && 1 <= rest {
      var p := s[..|s| - 1];
      if rest <= |s| && s[|s| - rest..] == text[..rest] {
        assert s[|s| - 1] == s[|s| - rest..][rest - 1];
      }
      if text[rest - 1] == s[|s| - 1] && rest > 1 {
        EndsWithScanSpec(p, text, matched + 1);
        if rest <= |s| {
          assert s[|s| - rest..] == p[|p| - (rest - 1)..] + [s[|s| - 1]];
          assert text[..rest] == text[..rest - 1] + [text[rest - 1]];
        }
      }
    }
  }

  /** `endsWith`: true exactly when `text` is non-empty and a suffix of the buffer. */
  function EndsWith(b: Buffer, text: string): (r: bool)
    ensures r <==> 0 < |text| <= |Text(b)| && Text(b)[|Text(b)| - |text|..] == text
  {
    EndsWithScanSpec(Text(b), text, 0);
    EndsWithScan(Text(b), text, 0)
  }

  /**
    `wasLastBlock` inside `_dequeueQueuedIndentation`: reading backwards and skipping CRs, at
    most one line feed may come before an opening brace.
   */
  function BlockScan(s: string, foundNewLine: bool): bool
  {
    if |s| == 0 then false
    else
      var c := s[|s| - 1];
      if c == '\n' then (if foundNewLine then false else BlockScan(s[..|s| - 1], true))
      else if c == '\r' then BlockScan(s[..|s| - 1], foundNewLine)
      else c == '{'
  }

  lemma {:induction false} BlockScanSpec(s: string, foundNewLine: bool)
    ensures BlockScan(s, foundNewLine) <==>
      exists k :: 0 <= k < |s| && s[k] == '{' && OnlyLineBreaks(s[k + 1..])
        && (if foundNewLine then 1 else 0) + NewLineCount(s[k + 1..]) <= 1
  {
    var f := if foundNewLine then 1 else 0;
    if |s| > 0 {
      var p := s[..|s| - 1];
      var c := s[|s| - 1];
      forall k | 0 <= k < |s| - 1
        ensures s[k] == p[k]
        ensures NewLineCount(s[k + 1..]) == NewLineCount(p[k + 1..]) + (if c == '\n' then 1 else 0)
        ensures OnlyLineBreaks(s[k + 1..]) <==> OnlyLineBreaks(p[k + 1..]) && IsLineBreak(c)
      {
        SuffixPeel(s, k + 1);
      }
      assert s[|s|..] == "";
      if c == '\n' && !foundNewLine {
        BlockScanSpec(p, true);
      } else if c == '\r' {
        BlockScanSpec(p, foundNewLine);
      }
    }
  }

  /** The last line of the buffer (before any CR/LF run with at most one LF) ends with `{`. */
  ghost predicate EndsWithBlockOpen(s: string)
  {
    exists k :: 0 <= k < |s| && s[k] == '{' && OnlyLineBreaks(s[k + 1..]) && NewLineCount(s[k + 1..]) <= 1
  }

  predicate WasLastBlock(b: Buffer)
  {
    BlockScan(Text(b), false)
  }

  lemma WasLastBlockSpec(b: Buffer)
    ensures WasLastBlock(b) <==> EndsWithBlockOpen(Text(b))
  {
    BlockScanSpec(Text(b), false);
  }

  /**
    `toString`: joins the fragments into one when there are several, and returns the text.
    The first component is the buffer afterwards.
   */
  function ToString(b: Buffer): (r: (Buffer, string))
    ensures r.1 == Text(b)
    ensures Text(r.0) == Text(b) && r.0.length == b.length
    ensures |r.0.texts| <= 1
  {
    if |b.texts| > 1 then
      var text := Concat(b.texts);
      ConcatSingleton(text);
      (Buffer([text], b.length), text)
    else if |b.texts| == 1 then
      assert b.texts[..0] == [];
      assert Concat(b.texts) == Concat(b.texts[..0]) + b.texts[0];
      (b, b.texts[0])
    else (b, "")
  }

  /** A second `toString` with no write in between changes nothing and returns the same text. */
  lemma ToStringIdempotent(b: Buffer)
    ensures ToString(ToString(b).0) == ToString(b)
  {
  }

  /** Where `unsafeInsert` splits: fragment `index`, `localIndex` characters into it. */
  datatype Location = Location(index: nat, localIndex: int)

  /** The location names position `pos` of the text and lies within its fragment. */
  ghost predicate Locates(texts: seq<string>, loc: Location, pos: int)
  {
    && loc.index < |texts|
    && 0 <= loc.localIndex <= |texts[loc.index]|
    && |Concat(texts[..loc.index])| + loc.localIndex == pos
    && pos <= |Concat(texts)|
  }

  /** The front-to-back search of `getArrayIndexAndLocalIndex`. */
  function FrontSearch(texts: seq<string>, pos: int, i: nat, endPos: int): Option<Location>
    decreases |texts| - i
  {
    if i >= |texts| then None
    else
      var startPos := endPos;
      var e := endPos + |texts[i]|;
      if e >= pos then Some(Location(i, pos - startPos)) else FrontSearch(texts, pos, i + 1, e)
  }

  /** The back-to-front search of `getArrayIndexAndLocalIndex`. */
  function BackSearch(texts: seq<string>, pos: int, i: int, startPos: int): Option<Location>
    requires i < |texts|
    decreases i + 1
  {
    if i < 0 then None
    else
      var s := startPos - |texts[i]|;
      if s <= pos then Some(Location(i, pos - s)) else BackSearch(texts, pos, i - 1, s)
  }

  lemma {:induction false} FrontSearchLocates(texts: seq<string>, pos: int, i: nat, endPos: int)
    requires 0 <= pos < |Concat(texts)|
    requires i < |texts| && endPos == |Concat(texts[..i])| && endPos <= pos
    ensures FrontSearch(texts, pos, i, endPos).Some?
    ensures Locates(texts, FrontSearch(texts, pos, i, endPos).value, pos)
    decreases |texts| - i
  {
    ConcatPrefixStep(texts, i);
    var e := endPos + |texts[i]|;
    if e < pos {
      FrontSearchLocates(texts, pos, i + 1, e);
    }
  }

  lemma {:induction false} BackSearchLocates(texts: seq<string>, pos: int, i: int, startPos: int)
    requires -1 <= i < |texts|
    requires startPos == |Concat(texts[..i + 1])| && 0 <= pos < startPos
    requires pos < |Concat(texts)|
    ensures BackSearch(texts, pos, i, startPos).Some?
    ensures Locates(texts, BackSearch(texts, pos, i, startPos).value, pos)
    decreases i + 1
  {
    if i < 0 {
      assert false;
    }
    ConcatPrefixStep(texts, i);
    var s := startPos - |texts[i]|;
    if s > pos {
      BackSearchLocates(texts, pos, i - 1, s);
    }
  }

  /** The search `unsafeInsert` runs: from the front for the first half of the text, else from the back. */
  function Locate(b: Buffer, pos: int): (r: Option<Location>)
    requires Valid(b) && 0 <= pos < b.length
    ensures r.Some? && Locates(b.texts, r.value, pos)
  {
    if 2 * pos < b.length then
      assert |b.texts| > 0;
      FrontSearchLocates(b.texts, pos, 0, 0);
      FrontSearch(b.texts, pos, 0, 0)
    else
      assert b.texts[..|b.texts|] == b.texts;
      BackSearchLocates(b.texts, pos, |b.texts| - 1, b.length);
      BackSearch(b.texts, pos, |b.texts| - 1, b.length)
  }

  /** The three `splice` shapes of `updateInternalArray`. */
  function SpliceAt(texts: seq<string>, loc: Location, text: string): seq<string>
    requires loc.index < |texts| && 0 <= loc.localIndex <= |texts[loc.index]|
  {
    var i := loc.index;
    var li := loc.localIndex;
    if li == 0 then texts[..i] + [text] + texts[i..]
    else if li == |texts[i]| then texts[..i + 1] + [text] + texts[i + 1..]
    else texts[..i] + [texts[i][..li], text, texts[i][li..]] + texts[i + 1..]
  }

  lemma ConcatSingleton(t: string)
    ensures Concat([t]) == t
  {
    assert [t][..0] == [];
  }

  lemma ConcatAround(a: seq<string>, t: string, c: seq<string>)
    ensures Concat(a + [t] + c) == Concat(a) + t + Concat(c)
  {
    ConcatAppend(a + [t], c);
    ConcatAppend(a, [t]);
    ConcatSingleton(t);
  }

  lemma ConcatAroundLocation(texts: seq<string>, loc: Location, pos: int)
    requires Locates(texts, loc, pos)
    ensures texts == texts[..loc.index] + [texts[loc.index]] + texts[loc.index + 1..]
    ensures Concat(texts) == Concat(texts[..loc.index]) + texts[loc.index] + Concat(texts[loc.index + 1..])
    ensures Concat(texts)[..pos] == Concat(texts[..loc.index]) + texts[loc.index][..loc.localIndex]
    ensures Concat(texts)[pos..] == texts[loc.index][loc.localIndex..] + Concat(texts[loc.index + 1..])
  {
    var i := loc.index;
    assert texts == texts[..i] + [texts[i]] + texts[i + 1..];
    ConcatAround(texts[..i], texts[i], texts[i + 1..]);
  }

  lemma SpliceAtInserts(texts: seq<string>, loc: Location, text: string, pos: int)
    requires Locates(texts, loc, pos)
    ensures Concat(SpliceAt(texts, loc, text)) == Concat(texts)[..pos] + text + Concat(texts)[pos..]
  {
    ConcatAroundLocation(texts, loc, pos);
    var t := texts[loc.index];
    var before := texts[..loc.index];
    var after := texts[loc.index + 1..];
    if loc.localIndex == 0 {
      assert texts[loc.index..] == [t] + after;
      SpliceBefore(before, t, after, text);
      assert t[..0] == "" && t[0..] == t;
      AppendGroup(Concat(before) + text, t, Concat(after));
    } else if loc.localIndex == |t| {
      assert texts[..loc.index + 1] == before + [t];
      SpliceAfter(before, t, after, text);
      assert t[..|t|] == t && t[|t|..] == "";
    } else {
      SpliceInside(before, t, after, text, loc.localIndex);
      AppendGroup(Concat(before) + t[..loc.localIndex] + text, t[loc.localIndex..], Concat(after));
    }
  }

  lemma AppendGroup(a: string, b: string, c: string)
    ensures a + b + c == a + (b + c)
  {
  }

  lemma ConcatSnoc(a: seq<string>, t: string)
    ensures Concat(a + [t]) == Concat(a) + t
  {
    assert (a + [t])[..|a|] == a;
  }

  /** Inserting a fragment before fragment `t`. */
  lemma SpliceBefore(before: seq<string>, t: string, after: seq<string>, text: string)
    ensures Concat(before + [text] + ([t] + after)) == Concat(before) + text + t + Concat(after)
  {
    assert before + [text] + ([t] + after) == (before + [text]) + [t] + after;
    ConcatAround(before + [text], t, after);
    ConcatSnoc(before, text);
  }

  /** Inserting a fragment after fragment `t`. */
  lemma SpliceAfter(before: seq<string>, t: string, after: seq<string>, text: string)
    ensures Concat((before + [t]) + [text] + after) == Concat(before) + t + text + Concat(after)
  {
    ConcatAround(before + [t], text, after);
    ConcatSnoc(before, t);
  }

  /** Splitting fragment `t` at `li` and inserting a fragment in between. */
  lemma SpliceInside(before: seq<string>, t: string, after: seq<string>, text: string, li: int)
    requires 0 < li < |t|
    ensures Concat(before + [t[..li], text, t[li..]] + after)
      == Concat(before) + t[..li] + text + t[li..] + Concat(after)
  {
    var left := before + [t[..li]] + [text];
    assert before + [t[..li], text, t[li..]] + after == left + [t[li..]] + after;
    ConcatAround(left, t[li..], after);
    ConcatSnoc(before + [t[..li]], text);
    ConcatSnoc(before, t[..li]);
  }

  /**
    `updateInternalArray` plus the length update of `unsafeInsert`, for a position strictly
    inside the text (the end position is handled by an ordinary write).
   */
  function InsertWithin(b: Buffer, pos: int, text: string): (r: Result<Buffer, Error>)
    requires Valid(b) && 0 <= pos < b.length
    ensures r.Ok?
    ensures Text(r.value) == Text(b)[..pos] + text + Text(b)[pos..]
    ensures r.value.length == b.length + |text| && Valid(r.value)
  {
    match Locate(b, pos)
    case None => Err(UnhandledInsert)
    case Some(loc) =>
      SpliceAtInserts(b.texts, loc, text, pos);
      Ok(Buffer(SpliceAt(b.texts, loc, text), b.length + |text|))
  }
}
