/**
  The lexical state `_updateInternalState` keeps while text is written: a stack of open
  string delimiters (`"`, `'`, backtick, and `{` for a `${` placeholder inside a template),
  the comment mode, and whether the writer believes it is inside a regular expression.
  The state only ever looks at the current character and the two before it.
 */
module Scanner {
  import opened Results

  datatype CommentChar = Line | Star

  datatype ScanState = ScanState(stack: seq<char>, comment: Option<CommentChar>, inRegEx: bool)

  const Initial: ScanState := ScanState([], None, false)

  /** `isCharToHandle`: the only characters that can change the state. */
  predicate IsCharToHandle(c: char)
  {
    c == '\\' || c == '/' || c == '\n' || c == '\r' || c == '*'
    || c == '"' || c == '\'' || c == '`' || c == '{' || c == '}'
  }

  predicate IsQuote(c: char)
  {
    c == '"' || c == '\'' || c == '`'
  }

  function Top(stack: seq<char>): Option<char>
  {
    if |stack| == 0 then None else Some(stack[|stack| - 1])
  }

  /** `isInString`. */
  predicate InString(st: ScanState)
  {
    |st.stack| > 0 && st.stack[|st.stack| - 1] != '{'
  }

  /** `isInComment`. */
  predicate InComment(st: ScanState)
  {
    st.comment.Some?
  }

  /**
    The shape every reachable stack has: a quote sits at the bottom or directly on a `{`,
    and a `{` sits directly on a backtick.
   */
  predicate StackShape(stack: seq<char>)
  {
    forall i :: 0 <= i < |stack| ==> ShapeAt(stack, i)
  }

  predicate ShapeAt(stack: seq<char>, i: nat)
    requires i < |stack|
  {
    if stack[i] == '{' then i > 0 && stack[i - 1] == '`'
    else IsQuote(stack[i]) && (i == 0 || stack[i - 1] == '{')
  }

  /** On a well-shaped stack, being in a string means a quote is on top. */
  lemma InStringIffQuoteOnTop(st: ScanState)
    requires StackShape(st.stack)
    ensures InString(st) <==> Top(st.stack).Some? && IsQuote(Top(st.stack).value)
  {
    if |st.stack| > 0 {
      assert ShapeAt(st.stack, |st.stack| - 1);
    }
  }

  lemma PopKeepsShape(stack: seq<char>)
    requires |stack| > 0 && StackShape(stack)
    ensures StackShape(stack[..|stack| - 1])
  {
    var p := stack[..|stack| - 1];
    forall i | 0 <= i < |p|
      ensures ShapeAt(p, i)
    {
      assert ShapeAt(stack, i);
    }
  }

  lemma PushKeepsShape(stack: seq<char>, c: char)
    requires StackShape(stack)
    requires c == '{' ==> Top(stack) == Some('`')
    requires c != '{' ==> IsQuote(c) && (Top(stack) == None || Top(stack) == Some('{'))
    ensures StackShape(stack + [c])
  {
    var p := stack + [c];
    forall i | 0 <= i < |p|
      ensures ShapeAt(p, i)
    {
      if i < |stack| {
        assert ShapeAt(stack, i);
      }
    }
  }

  /** `isRegExStart`. */
  predicate IsRegExStart(cur: char, past: Option<char>, pastPast: Option<char>)
  {
    past == Some('/') && cur != '/' && cur != '*' && pastPast != Some('*') && pastPast != Some('/')
  }

  /** The test that ends regex mode: an unescaped `/` just before, or a line feed just before. */
  predicate EndsRegEx(past: Option<char>, pastPast: Option<char>)
  {
    (past == Some('/') && pastPast != Some('\\')) || past == Some('\n')
  }

  /** The comment transitions, applied to a character that reached them. */
  function CommentAfter(comment: Option<CommentChar>, cur: char, past: Option<char>): Option<CommentChar>
  {
    if comment == None && past == Some('/') && cur == '/' then Some(Line)
    else if comment == None && past == Some('/') && cur == '*' then Some(Star)
    else if comment == Some(Star) && past == Some('*') && cur == '/' then None
    else comment
  }

  /** The string-stack transitions, applied to a character outside any comment. */
  function StackAfter(stack: seq<char>, cur: char, past: Option<char>, pastPast: Option<char>): seq<char>
  {
    var top := Top(stack);
    if past != Some('\\') && IsQuote(cur) then
      if top == Some(cur) then stack[..|stack| - 1]
      else if top == Some('{') || top == None then stack + [cur]
      else stack
    else if pastPast != Some('\\') && past == Some('$') && cur == '{' && top == Some('`') then stack + ['{']
    else if cur == '}' && top == Some('{') then stack[..|stack| - 1]
    else stack
  }

  /** Regex mode is only ever entered outside comments, and a comment cannot start inside it. */
  predicate RegExOutsideComments(st: ScanState)
  {
    st.inRegEx ==> st.comment == None
  }

  /** A character gets past the regex handling and on to the comment and string rules. */
  predicate ReachesRules(st: ScanState, cur: char, past: Option<char>, pastPast: Option<char>)
  {
    && IsCharToHandle(cur)
    && (st.inRegEx ==> EndsRegEx(past, pastPast))
    && (!st.inRegEx ==> !(!InString(st) && !InComment(st) && IsRegExStart(cur, past, pastPast)))
  }

  /** One iteration of the loop of `_updateInternalState`. */
  function Step(st: ScanState, cur: char, past: Option<char>, pastPast: Option<char>): (r: ScanState)
    // the `isCharToHandle` filter: any other character changes nothing
    ensures !IsCharToHandle(cur) ==> r == st
    // inside a regex, a character that does not end it is inert
    ensures st.inRegEx && !EndsRegEx(past, pastPast) ==> r == st
    // regex mode starts only outside strings and comments, on the start pattern, and then nothing else moves
    ensures !st.inRegEx && r.inRegEx <==>
      IsCharToHandle(cur) && !st.inRegEx && !InString(st) && !InComment(st) && IsRegExStart(cur, past, pastPast)
    ensures !st.inRegEx && r.inRegEx ==> r.stack == st.stack && r.comment == st.comment
    // regex mode ends only on the exit pattern
    ensures st.inRegEx && !r.inRegEx ==> EndsRegEx(past, pastPast)
    // `//` and `/*` start a comment only outside one; `*/` ends only a star comment; a line comment survives
    ensures r.comment == Some(Line) && st.comment != Some(Line) ==> st.comment == None && past == Some('/') && cur == '/'
    ensures r.comment == Some(Star) && st.comment != Some(Star) ==> st.comment == None && past == Some('/') && cur == '*'
    ensures st.comment.Some? && r.comment == None ==> st.comment == Some(Star) && past == Some('*') && cur == '/'
    ensures st.comment == Some(Line) ==> r.comment == Some(Line)
    // the string rules are skipped while in a comment
    ensures r.comment.Some? ==> r.stack == st.stack
    // a character that reaches the rules is governed by them
    ensures ReachesRules(st, cur, past, pastPast) ==>
      !r.inRegEx && r.comment == CommentAfter(st.comment, cur, past)
      && r.stack == (if r.comment.Some? then st.stack else StackAfter(st.stack, cur, past, pastPast))
    ensures StackShape(st.stack) ==> StackShape(r.stack)
    ensures RegExOutsideComments(st) ==> RegExOutsideComments(r)
  {
    if !IsCharToHandle(cur) then st
    else if st.inRegEx && !EndsRegEx(past, pastPast) then st
    else if !st.inRegEx && !InString(st) && !InComment(st) && IsRegExStart(cur, past, pastPast) then
      st.(inRegEx := true)
    else
      var comment := CommentAfter(st.comment, cur, past);
      if comment.Some? then ScanState(st.stack, comment, false)
      else
        StackAfterKeepsShape(st.stack, cur, past, pastPast);
        ScanState(StackAfter(st.stack, cur, past, pastPast), comment, false)
  }

  lemma StackAfterKeepsShape(stack: seq<char>, cur: char, past: Option<char>, pastPast: Option<char>)
    ensures StackShape(stack) ==> StackShape(StackAfter(stack, cur, past, pastPast))
  {
    if StackShape(stack) {
      var top := Top(stack);
      if past != Some('\\') && IsQuote(cur) {
        if top == Some(cur) {
          PopKeepsShape(stack);
        } else if top == Some('{') || top == None {
          PushKeepsShape(stack, cur);
        }
      } else if pastPast != Some('\\') && past == Some('$') && cur == '{' && top == Some('`') {
        PushKeepsShape(stack, '{');
      } else if cur == '}' && top == Some('{') {
        PopKeepsShape(stack);
      }
    }
  }

  /**
    The stack moves by at most one entry per character: a quote is pushed only onto an empty
    stack or a `{`, a `{` only onto a backtick after an unescaped `$`; a quote pops only its
    own kind, and `}` pops only a `{`.
   */
  lemma StepStackMoves(st: ScanState, cur: char, past: Option<char>, pastPast: Option<char>)
    ensures var r := Step(st, cur, past, pastPast);
      || r.stack == st.stack
      || (|st.stack| > 0 && r.stack == st.stack[..|st.stack| - 1]
          && ((IsQuote(cur) && past != Some('\\') && Top(st.stack) == Some(cur))
              || (cur == '}' && Top(st.stack) == Some('{'))))
      || (r.stack == st.stack + [cur]
          && ((IsQuote(cur) && past != Some('\\') && (Top(st.stack) == None || Top(st.stack) == Some('{')))
              || (cur == '{' && past == Some('$') && pastPast != Some('\\') && Top(st.stack) == Some('`'))))
  {
  }

  /** The loop of `_updateInternalState` over `s`, threading the two previous characters. */
  function Scan(st: ScanState, s: string, past: Option<char>, pastPast: Option<char>): (r: ScanState)
    ensures StackShape(st.stack) ==> StackShape(r.stack)
    ensures st.comment == Some(Line) ==> r.comment == Some(Line)
    ensures RegExOutsideComments(st) ==> RegExOutsideComments(r)
    decreases |s|
  {
    if |s| == 0 then st
    else Scan(Step(st, s[0], past, pastPast), s[1..], Some(s[0]), past)
  }

  /** The character just before the end of `a`, given what preceded `a`. */
  function PastAfter(a: string, past: Option<char>): Option<char>
  {
    if |a| == 0 then past else Some(a[|a| - 1])
  }

  /** The character two before the end of `a`, given the two that preceded `a`. */
  function PastPastAfter(a: string, past: Option<char>, pastPast: Option<char>): Option<char>
  {
    if |a| >= 2 then Some(a[|a| - 2]) else if |a| == 1 then past else pastPast
  }

  /**
    Scanning is independent of how text is cut into writes: scanning `a + b` is scanning `a`,
    then scanning `b` with the last two characters of `a` as look-behind.
   */
  lemma {:induction false} ScanAppend(st: ScanState, a: string, b: string, past: Option<char>, pastPast: Option<char>)
    ensures Scan(st, a + b, past, pastPast)
      == Scan(Scan(st, a, past, pastPast), b, PastAfter(a, past), PastPastAfter(a, past, pastPast))
    decreases |a|
  {
    if |a| == 0 {
      assert a + b == b;
    } else {
      assert (a + b)[0] == a[0];
      assert (a + b)[1..] == a[1..] + b;
      ScanAppend(Step(st, a[0], past, pastPast), a[1..], b, Some(a[0]), past);
    }
  }

  /** Text without any of the ten handled characters leaves the state exactly as it was. */
  lemma {:induction false} ScanInert(st: ScanState, s: string, past: Option<char>, pastPast: Option<char>)
    requires forall i :: 0 <= i < |s| ==> !IsCharToHandle(s[i])
    ensures Scan(st, s, past, pastPast) == st
    decreases |s|
  {
    if |s| > 0 {
      ScanInert(st, s[1..], Some(s[0]), past);
    }
  }

  /**
    Text that can open or close no string on this stack: it holds no quote, and a `}` only
    when nothing is open (a `}` would otherwise close a `${` placeholder).
   */
  predicate KeepsStack(stack: seq<char>, s: string)
  {
    forall i :: 0 <= i < |s| ==> !IsQuote(s[i]) && (s[i] == '}' ==> |stack| == 0)
  }

  /** A single `{`, or text of characters the scanner ignores, opens or closes nothing. */
  lemma InertKeepsStack(stack: seq<char>, s: string)
    requires s == "{" || forall i :: 0 <= i < |s| ==> !IsCharToHandle(s[i])
    ensures KeepsStack(stack, s)
  {
    if s == "{" {
      assert forall i :: 0 <= i < |s| ==> s[i] == '{';
    }
  }

  /**
    Outside a string, such text leaves the string stack as it is: a `{` is pushed only after
    `$` inside a template, which is inside a string.
   */
  lemma {:induction false} ScanKeepsStack(st: ScanState, s: string, past: Option<char>, pastPast: Option<char>)
    requires !InString(st) && KeepsStack(st.stack, s)
    ensures Scan(st, s, past, pastPast).stack == st.stack
    decreases |s|
  {
    if |s| > 0 {
      var st1 := Step(st, s[0], past, pastPast);
      assert st1.stack == st.stack by {
        assert !IsQuote(s[0]) && (s[0] == '}' ==> |st.stack| == 0);
        assert StackAfter(st.stack, s[0], past, pastPast) == st.stack;
      }
      assert KeepsStack(st1.stack, s[1..]) by {
        assert forall i :: 0 <= i < |s[1..]| ==> s[1..][i] == s[i + 1];
      }
      ScanKeepsStack(st1, s[1..], Some(s[0]), past);
    }
  }

  /** Outside a string, a newline leaves the string stack as it is. */
  lemma NewLineKeepsStack(st: ScanState, lastChar: Option<char>)
    requires !InString(st)
    ensures AtNewLine(st, lastChar).stack == st.stack
  {
  }

  /**
    A quoted literal whose body holds no handled character, written in plain code (not in a
    string, comment or regex, and not right after `/` or `\`), is a string strictly between
    its quotes and leaves the state as it found it after the closing one.
   */
  lemma QuotedLiteral(st: ScanState, q: char, body: string, past: Option<char>, pastPast: Option<char>)
    requires IsQuote(q) && StackShape(st.stack)
    requires !InString(st) && !InComment(st) && !st.inRegEx
    requires past != Some('/') && past != Some('\\')
    requires forall i :: 0 <= i < |body| ==> !IsCharToHandle(body[i])
    ensures InString(Scan(st, [q] + body, past, pastPast))
    ensures Scan(st, [q] + body + [q], past, pastPast) == st
  {
    var afterOpen := Step(st, q, past, pastPast);
    assert afterOpen.stack == st.stack + [q];
    assert ([q] + body)[1..] == body;
    ScanInert(afterOpen, body, Some(q), past);
    ScanAppend(st, [q] + body, [q], past, pastPast);
    var last := PastAfter([q] + body, past);
    assert last != Some('/') && last != Some('\\') by {
      if |body| > 0 {
        assert last == Some(body[|body| - 1]);
      }
    }
    assert [q][1..] == [];
  }

  /**
    The newline rules of `_baseWriteNewline`: a line comment ends, and an open `"` or `'`
    string is dropped unless the line ends in a backslash. Regex mode is untouched here; it
    ends at the next handled character because a line feed then precedes it.
   */
  function AtNewLine(st: ScanState, lastChar: Option<char>): (r: ScanState)
    ensures r.inRegEx == st.inRegEx
    ensures r.comment == (if st.comment == Some(Line) then None else st.comment)
    ensures StackShape(st.stack) ==> StackShape(r.stack)
    ensures RegExOutsideComments(st) ==> RegExOutsideComments(r)
  {
    var comment := if st.comment == Some(Line) then None else st.comment;
    var top := Top(st.stack);
    if (top == Some('"') || top == Some('\'')) && lastChar != Some('\\') then
      assert StackShape(st.stack) ==> StackShape(st.stack[..|st.stack| - 1]) by {
        if StackShape(st.stack) { PopKeepsShape(st.stack); }
      }
      ScanState(st.stack[..|st.stack| - 1], comment, st.inRegEx)
    else ScanState(st.stack, comment, st.inRegEx)
  }

  /**
    An unescaped newline closes a `"` or `'` string, and the writer is then back in code
    (a placeholder or the top level); a template string survives any newline, as does an
    escaped one.
   */
  lemma NewLineEndsQuoteStrings(st: ScanState, lastChar: Option<char>)
    requires StackShape(st.stack)
    ensures var r := AtNewLine(st, lastChar);
      && (Top(st.stack) == Some('`') ==> r.stack == st.stack && InString(r))
      && ((Top(st.stack) == Some('"') || Top(st.stack) == Some('\'')) && lastChar != Some('\\')
          ==> !InString(r) && |r.stack| + 1 == |st.stack|)
      && (lastChar == Some('\\') ==> r.stack == st.stack)
  {
    var n := |st.stack|;
    if n >= 1 {
      assert ShapeAt(st.stack, n - 1);
    }
  }

  /** Writing `*` then `/` inside a star comment ends it, whatever came before. */
  lemma StarCommentCloser(st: ScanState, past: Option<char>, pastPast: Option<char>)
    requires st.comment == Some(Star) && !st.inRegEx
    ensures Scan(st, "*/", past, pastPast).comment == None
  {
    var mid := Step(st, '*', past, pastPast);
    assert mid.comment == Some(Star) && !mid.inRegEx;
    assert "*/"[1..] == "/";
    assert Scan(st, "*/", past, pastPast) == Scan(mid, "/", Some('*'), past);
    assert Step(mid, '/', Some('*'), past).comment == None;
  }
}
