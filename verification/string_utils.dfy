/**
  The small string helpers: `escapeForWithinString` (utils/string_utils.ts) and the string
  repetition of the older source tree (src/utils/stringUtils.ts), plus `String.prototype.repeat`
  as the writer uses it.
 */
module StringUtils {
  import opened Results

  /** `s` written `n` times in a row: the reference meaning of every repetition below. */
  function Repeat(s: string, n: nat): (r: string)
    ensures |r| == n * |s|
  {
    if n == 0 then "" else Repeat(s, n - 1) + s
  }

  /** Character `j` of block `q` of a repetition is character `j` of `s`. */
  lemma {:induction false} RepeatBlock(s: string, n: nat, q: nat, j: nat)
    requires q < n && j < |s|
    ensures q * |s| + j < n * |s|
    ensures Repeat(s, n)[q * |s| + j] == s[j]
  {
    if q < n - 1 {
      RepeatBlock(s, n - 1, q, j);
      assert (n - 1) * |s| + |s| == n * |s|;
    } else {
      assert q * |s| == |Repeat(s, n - 1)|;
    }
  }

  /** Repeating a string made of one character gives a string made of that character. */
  lemma {:induction false} RepeatUniform(s: string, n: nat, c: char)
    requires forall i :: 0 <= i < |s| ==> s[i] == c
    ensures forall i :: 0 <= i < |Repeat(s, n)| ==> Repeat(s, n)[i] == c
  {
    if n > 0 {
      RepeatUniform(s, n - 1, c);
    }
  }

  /** `String.prototype.repeat` for an integer count: a negative count is a RangeError. */
  function NativeRepeat(s: string, times: int): (r: Result<string, Error>)
    ensures r.Err? <==> times < 0
    ensures r.Err? ==> r.error == InvalidCount
    ensures r.Ok? ==> |r.value| == times * |s|
  {
    if times < 0 then Err(InvalidCount) else Ok(Repeat(s, times))
  }

  /** `es5StringRepeat`: appends `s` to an empty string `times` times; a negative count throws. */
  method Es5StringRepeat(s: string, times: int) returns (r: Result<string, Error>)
    ensures r.Err? <==> times < 0
    ensures r.Err? ==> r.error == InvalidTimes
    ensures r.Ok? ==> |r.value| == times * |s|
    ensures r.Ok? ==> r.value == Repeat(s, times)
  {
    if times < 0 {
      return Err(InvalidTimes);
    }
    var newStr := "";
    var i := 0;
    while i < times
      invariant 0 <= i <= times
      invariant newStr == Repeat(s, i)
    {
      newStr := newStr + s;
      i := i + 1;
    }
    return Ok(newStr);
  }

  /**
    `stringRepeat`: uses the native repeat when the runtime has one and `es5StringRepeat`
    otherwise; both give the same answer, and both refuse a negative count.
   */
  method StringRepeat(s: string, times: int, hasNativeRepeat: bool) returns (r: Result<string, Error>)
    ensures r.Err? <==> times < 0
    ensures r.Ok? ==> r.value == Repeat(s, times)
    ensures !hasNativeRepeat ==> r.Err? ==> r.error == InvalidTimes
  {
    if hasNativeRepeat {
      r := NativeRepeat(s, times);
    } else {
      r := Es5StringRepeat(s, times);
    }
  }

  /** `escapeForWithinString`, character by character from the front. */
  function EscapeForWithinString(s: string, quoteKind: string): string
  {
    if |s| == 0 then ""
    else if [s[0]] == quoteKind then ['\\', s[0]] + EscapeForWithinString(s[1..], quoteKind)
    else if s[0] == '\r' && |s| > 1 && s[1] == '\n' then "\\r\\n\\\n" + EscapeForWithinString(s[2..], quoteKind)
    else if s[0] == '\n' then "\\n\\\n" + EscapeForWithinString(s[1..], quoteKind)
    else if s[0] == '\\' then "\\\\" + EscapeForWithinString(s[1..], quoteKind)
    else [s[0]] + EscapeForWithinString(s[1..], quoteKind)
  }

  /**
    The reading a JavaScript string literal gives the escaped text: a backslash followed by
    `r\n\` and a line feed is CR LF, a backslash followed by `n\` and a line feed is LF, and a
    backslash followed by any other character is that character.
   */
  function Unescape(e: string): string
  {
    if |e| == 0 then ""
    else if e[0] == '\\' && |e| >= 2 then
      if e[1] == 'r' && |e| >= 6 && e[2..6] == "\\n\\\n" then "\r\n" + Unescape(e[6..])
      else if e[1] == 'n' && |e| >= 4 && e[2..4] == "\\\n" then "\n" + Unescape(e[4..])
      else [e[1]] + Unescape(e[2..])
    else [e[0]] + Unescape(e[1..])
  }

  /** Escaping loses nothing: reading the escaped text back gives the original. */
  lemma {:induction false} EscapeRoundTrip(s: string, quoteKind: string)
    requires quoteKind != "r" && quoteKind != "n"
    ensures Unescape(EscapeForWithinString(s, quoteKind)) == s
  {
    if |s| > 0 {
      var e := EscapeForWithinString(s, quoteKind);
      if [s[0]] == quoteKind {
        EscapeRoundTrip(s[1..], quoteKind);
        assert e[2..] == EscapeForWithinString(s[1..], quoteKind);
        assert s == [s[0]] + s[1..];
      } else if s[0] == '\r' && |s| > 1 && s[1] == '\n' {
        EscapeRoundTrip(s[2..], quoteKind);
        assert e[2..6] == "\\n\\\n";
        assert e[6..] == EscapeForWithinString(s[2..], quoteKind);
        assert s == "\r\n" + s[2..];
      } else if s[0] == '\n' {
        EscapeRoundTrip(s[1..], quoteKind);
        assert e[2..4] == "\\\n";
        assert e[4..] == EscapeForWithinString(s[1..], quoteKind);
        assert s == "\n" + s[1..];
      } else if s[0] == '\\' {
        EscapeRoundTrip(s[1..], quoteKind);
        assert e[2..] == EscapeForWithinString(s[1..], quoteKind);
        assert s == [s[0]] + s[1..];
      } else {
        EscapeRoundTrip(s[1..], quoteKind);
        assert e[1..] == EscapeForWithinString(s[1..], quoteKind);
        assert s == [s[0]] + s[1..];
      }
    }
  }

  /** The text one step of the escape emits for the front of `s`, and how many characters it consumes. */
  function EscapeHead(s: string, quoteKind: string): (string, nat)
    requires |s| > 0
  {
    if [s[0]] == quoteKind then (['\\', s[0]], 1)
    else if s[0] == '\r' && |s| > 1 && s[1] == '\n' then ("\\r\\n\\\n", 2)
    else if s[0] == '\n' then ("\\n\\\n", 1)
    else if s[0] == '\\' then ("\\\\", 1)
    else ([s[0]], 1)
  }

  lemma EscapeUnfold(s: string, quoteKind: string)
    requires |s| > 0
    ensures EscapeHead(s, quoteKind).1 <= |s|
    ensures EscapeForWithinString(s, quoteKind)
      == EscapeHead(s, quoteKind).0 + EscapeForWithinString(s[EscapeHead(s, quoteKind).1..], quoteKind)
  {
  }

  /**
    Escaping works piece by piece: the escape of `a + b` is the escapes of `a` and `b` side by
    side, unless `a` ends in CR and `b` starts with LF (that pair is escaped as one).
   */
  lemma {:induction false} EscapeAppend(a: string, b: string, quoteKind: string)
    requires !(|a| > 0 && a[|a| - 1] == '\r' && |b| > 0 && b[0] == '\n')
    ensures EscapeForWithinString(a + b, quoteKind)
      == EscapeForWithinString(a, quoteKind) + EscapeForWithinString(b, quoteKind)
    decreases |a|
  {
    if |a| == 0 {
      assert a + b == b;
    } else {
      var h := EscapeHead(a, quoteKind);
      var rest := a[h.1..];
      EscapeHeadOfAppend(a, b, quoteKind);
      calc {
        EscapeForWithinString(a + b, quoteKind);
      == { EscapeUnfold(a + b, quoteKind); }
        h.0 + EscapeForWithinString(rest + b, quoteKind);
      == { EscapeAppend(rest, b, quoteKind); }
        h.0 + (EscapeForWithinString(rest, quoteKind) + EscapeForWithinString(b, quoteKind));
      == { EscapeUnfold(a, quoteKind); }
        EscapeForWithinString(a, quoteKind) + EscapeForWithinString(b, quoteKind);
      }
    }
  }

  /** The first escape step of `a + b` is that of `a`, and leaves the rest of `a` followed by `b`. */
  lemma EscapeHeadOfAppend(a: string, b: string, quoteKind: string)
    requires |a| > 0 && !(a[|a| - 1] == '\r' && |b| > 0 && b[0] == '\n')
    ensures EscapeHead(a, quoteKind).1 <= |a|
    ensures EscapeHead(a + b, quoteKind) == EscapeHead(a, quoteKind)
    ensures (a + b)[EscapeHead(a, quoteKind).1..] == a[EscapeHead(a, quoteKind).1..] + b
    ensures var rest := a[EscapeHead(a, quoteKind).1..];
      !(|rest| > 0 && rest[|rest| - 1] == '\r' && |b| > 0 && b[0] == '\n')
  {
    var ab := a + b;
    assert ab[0] == a[0];
    if |a| > 1 { assert ab[1] == a[1]; }
  }

  /** Text with no backslash, no line feed and no `quoteKind` comes out unchanged: other quotes and lone CRs included. */
  lemma {:induction false} EscapePlainText(s: string, quoteKind: string)
    requires forall i :: 0 <= i < |s| ==> s[i] != '\\' && s[i] != '\n' && [s[i]] != quoteKind
    ensures EscapeForWithinString(s, quoteKind) == s
  {
    if |s| > 0 {
      EscapePlainText(s[1..], quoteKind);
      assert s == [s[0]] + s[1..];
    }
  }

  /** Each occurrence of the quote gets exactly one backslash in front of it, wherever it stands. */
  lemma EscapeQuote(a: string, b: string, q: char)
    requires q != '\n'
    ensures EscapeForWithinString(a + [q] + b, [q])
      == EscapeForWithinString(a, [q]) + ['\\', q] + EscapeForWithinString(b, [q])
  {
    EscapeAppend(a, [q] + b, [q]);
    assert a + [q] + b == a + ([q] + b);
    assert ([q] + b)[1..] == b;
  }

  /** Each backslash is doubled, wherever it stands. */
  lemma EscapeBackslash(a: string, b: string, quoteKind: string)
    requires quoteKind != "\\"
    ensures EscapeForWithinString(a + ['\\'] + b, quoteKind)
      == EscapeForWithinString(a, quoteKind) + "\\\\" + EscapeForWithinString(b, quoteKind)
  {
    EscapeAppend(a, ['\\'] + b, quoteKind);
    assert a + ['\\'] + b == a + (['\\'] + b);
    assert (['\\'] + b)[1..] == b;
  }

  /** A line feed not after a CR becomes backslash, `n`, backslash, line feed. */
  lemma EscapeLineFeed(a: string, b: string, quoteKind: string)
    requires quoteKind != "\n"
    requires !(|a| > 0 && a[|a| - 1] == '\r')
    ensures EscapeForWithinString(a + ['\n'] + b, quoteKind)
      == EscapeForWithinString(a, quoteKind) + "\\n\\\n" + EscapeForWithinString(b, quoteKind)
  {
    EscapeAppend(a, ['\n'] + b, quoteKind);
    assert a + ['\n'] + b == a + (['\n'] + b);
    assert (['\n'] + b)[1..] == b;
  }

  /** A CR LF pair becomes backslash, `r`, backslash, `n`, backslash, line feed: the CR itself is dropped. */
  lemma EscapeCarriageReturnLineFeed(a: string, b: string, quoteKind: string)
    requires quoteKind != "\r"
    requires !(|a| > 0 && a[|a| - 1] == '\r')
    ensures EscapeForWithinString(a + "\r\n" + b, quoteKind)
      == EscapeForWithinString(a, quoteKind) + "\\r\\n\\\n" + EscapeForWithinString(b, quoteKind)
  {
    EscapeAppend(a, "\r\n" + b, quoteKind);
    assert a + "\r\n" + b == a + ("\r\n" + b);
    assert ("\r\n" + b)[2..] == b;
  }
}
