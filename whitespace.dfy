/**
 * `SpotlessMojo.normalizeWhitespace`: four `replaceAll` passes over the file
 * text. Each pass is a left-to-right scan that replaces the leftmost,
 * longest match and continues after it, as `java.util.regex` does.
 */
module Whitespace {

  predicate IsBlank(c: char)
  {
    c == ' ' || c == '\t'
  }

  // ------------------------------------------------------------ line endings

  /** `replaceAll("\\r\\n", "\n")`. */
  function CrLfToLf(s: string): (r: string)
    ensures |r| <= |s|
  {
    if |s| >= 2 && s[0] == '\r' && s[1] == '\n' then "\n" + CrLfToLf(s[2..])
    else if s == [] then []
    else [s[0]] + CrLfToLf(s[1..])
  }

  /** `replaceAll("\\r", "\n")`. */
  function CrToLf(s: string): (r: string)
    ensures |r| == |s| && '\r' !in r
    ensures forall i | 0 <= i < |s| && s[i] != '\r' :: r[i] == s[i]
  {
    seq(|s|, i requires 0 <= i < |s| => if s[i] == '\r' then '\n' else s[i])
  }

  /**
   * Line endings in one pass: every CRLF pair and every other CR becomes a
   * single LF.
   */
  function UnixLineEndings(s: string): string
  {
    if s == [] then []
    else if s[0] == '\r' then
      if |s| >= 2 && s[1] == '\n' then "\n" + UnixLineEndings(s[2..]) else "\n" + UnixLineEndings(s[1..])
    else [s[0]] + UnixLineEndings(s[1..])
  }

  /**
   * The first two passes, CRLF first and lone CR second, convert line endings
   * as the one-pass definition does: a CRLF pair yields one LF, not two.
   */
  lemma {:induction false} TwoPassLineEndings(s: string)
    ensures CrToLf(CrLfToLf(s)) == UnixLineEndings(s)
  {
    if |s| >= 2 && s[0] == '\r' && s[1] == '\n' {
      TwoPassLineEndings(s[2..]);
      CrToLfAppend("\n", CrLfToLf(s[2..]));
    } else if s != [] {
      TwoPassLineEndings(s[1..]);
      CrToLfAppend([s[0]], CrLfToLf(s[1..]));
    }
  }

  lemma CrToLfAppend(a: string, b: string)
    ensures CrToLf(a + b) == CrToLf(a) + CrToLf(b)
  {
  }

  /** Text without CR passes through the first two passes unchanged. */
  lemma {:induction false} LineEndingsKeep(s: string)
    requires '\r' !in s
    ensures CrToLf(CrLfToLf(s)) == s
  {
    if s != [] {
      assert s[0] != '\r' && '\r' !in s[1..] by {
        assert s[0] in s;
        assert forall c | c in s[1..] :: c in s;
      }
      LineEndingsKeep(s[1..]);
      CrToLfAppend([s[0]], CrLfToLf(s[1..]));
      assert s == [s[0]] + s[1..];
    }
  }

  // ------------------------------------------------------- trailing blanks

  /** The length of the run of spaces and tabs `s` starts with. */
  function BlankRun(s: string): (n: nat)
    ensures n <= |s| && (n < |s| ==> !IsBlank(s[n]))
    ensures forall i | 0 <= i < n :: IsBlank(s[i])
  {
    if s != [] && IsBlank(s[0]) then 1 + BlankRun(s[1..]) else 0
  }

  /**
   * `replaceAll("[ \\t]+\\n", "\n")`: a run of blanks followed by a newline
   * is dropped; a run followed by anything else, or by the end of the text,
   * is kept, and the scan resumes after it (no shorter run can match there
   * either).
   */
  function TrimBlanksBeforeNewline(s: string): string
    decreases |s|
  {
    if s == [] then []
    else if !IsBlank(s[0]) then [s[0]] + TrimBlanksBeforeNewline(s[1..])
    else
      var n := BlankRun(s);
      if n < |s| && s[n] == '\n' then "\n" + TrimBlanksBeforeNewline(s[n + 1..])
      else s[..n] + TrimBlanksBeforeNewline(s[n..])
  }

  /** No newline directly follows a space or a tab. */
  predicate NoBlankBeforeNewline(s: string)
  {
    forall i | 0 < i < |s| && s[i] == '\n' :: !IsBlank(s[i - 1])
  }

  /** One step of the trimming pass on a text that starts with a non-blank. */
  lemma {:induction false} TrimUnfoldNonBlank(s: string)
    requires s != [] && !IsBlank(s[0])
    ensures TrimBlanksBeforeNewline(s) == [s[0]] + TrimBlanksBeforeNewline(s[1..])
  {
  }

  /** One step of the trimming pass on a text that starts with a blank. */
  lemma {:induction false} TrimUnfoldBlank(s: string)
    requires s != [] && IsBlank(s[0])
    ensures var n := BlankRun(s);
      TrimBlanksBeforeNewline(s) ==
        if n < |s| && s[n] == '\n' then "\n" + TrimBlanksBeforeNewline(s[n + 1..])
        else s[..n] + TrimBlanksBeforeNewline(s[n..])
  {
  }

  /** A text and its trimmed form start with the same non-blank character. */
  lemma TrimStart(s: string)
    requires s != [] && !IsBlank(s[0])
    ensures TrimBlanksBeforeNewline(s) != [] && TrimBlanksBeforeNewline(s)[0] == s[0]
  {
  }

  /**
   * The trimming pass leaves no blank before a newline, never lengthens the
   * text and never introduces a CR.
   */
  lemma TrimSpec(s: string)
    ensures NoBlankBeforeNewline(TrimBlanksBeforeNewline(s))
    ensures |TrimBlanksBeforeNewline(s)| <= |s|
    ensures '\r' !in s ==> '\r' !in TrimBlanksBeforeNewline(s)
  {
    TrimNoBlank(s);
    TrimShortens(s);
    TrimNoCr(s);
  }

  /** After trimming, no newline directly follows a blank. */
  lemma {:induction false} TrimNoBlank(s: string)
    ensures NoBlankBeforeNewline(TrimBlanksBeforeNewline(s))
    decreases |s|
  {
    if s == [] {
    } else if !IsBlank(s[0]) {
      var rest := TrimBlanksBeforeNewline(s[1..]);
      TrimNoBlank(s[1..]);
      NoBlankBeforeNewlineCons(s[0], rest);
    } else {
      var n := BlankRun(s);
      if n < |s| && s[n] == '\n' {
        TrimNoBlank(s[n + 1..]);
        NoBlankBeforeNewlineCons('\n', TrimBlanksBeforeNewline(s[n + 1..]));
      } else {
        var rest := TrimBlanksBeforeNewline(s[n..]);
        TrimNoBlank(s[n..]);
        if n < |s| {
          TrimStart(s[n..]);
        }
        BlanksThenNoNewline(s[..n], rest);
      }
    }
  }

  /** Trimming never lengthens the text. */
  lemma {:induction false} TrimShortens(s: string)
    ensures |TrimBlanksBeforeNewline(s)| <= |s|
    decreases |s|
  {
    if s == [] {
    } else if !IsBlank(s[0]) {
      TrimShortens(s[1..]);
    } else {
      var n := BlankRun(s);
      if n < |s| && s[n] == '\n' {
        TrimShortens(s[n + 1..]);
      } else {
        TrimShortens(s[n..]);
      }
    }
  }

  /** The trimming pass introduces no CR. */
  lemma {:induction false} TrimNoCr(s: string)
    ensures '\r' !in s ==> '\r' !in TrimBlanksBeforeNewline(s)
    decreases |s|
  {
    if s != [] && '\r' !in s {
      if !IsBlank(s[0]) {
        SuffixNoCr(s, 1);
        TrimNoCr(s[1..]);
        TrimUnfoldNonBlank(s);
      } else {
        var n := BlankRun(s);
        TrimUnfoldBlank(s);
        if n < |s| && s[n] == '\n' {
          SuffixNoCr(s, n + 1);
          TrimNoCr(s[n + 1..]);
        } else {
          SuffixNoCr(s, n);
          TrimNoCr(s[n..]);
          assert forall c | c in s[..n] :: c in s;
        }
      }
    }
  }

  lemma SuffixNoCr(s: string, k: nat)
    requires k <= |s|
    ensures '\r' !in s ==> '\r' !in s[k..]
  {
    assert forall c | c in s[k..] :: c in s;
  }

  lemma NoBlankBeforeNewlineCons(c: char, rest: string)
    requires NoBlankBeforeNewline(rest)
    requires rest != [] && rest[0] == '\n' ==> !IsBlank(c)
    ensures NoBlankBeforeNewline([c] + rest)
  {
    var t := [c] + rest;
    forall i | 0 < i < |t| && t[i] == '\n' ensures !IsBlank(t[i - 1]) {
      if i > 1 {
        assert t[i] == rest[i - 1] && t[i - 1] == rest[i - 2];
      }
    }
  }

  lemma BlanksThenNoNewline(blanks: string, rest: string)
    requires forall i | 0 <= i < |blanks| :: IsBlank(blanks[i])
    requires NoBlankBeforeNewline(rest)
    requires blanks != [] && rest != [] ==> rest[0] != '\n'
    ensures NoBlankBeforeNewline(blanks + rest)
  {
    var t := blanks + rest;
    assert forall i | 0 <= i < |blanks| :: t[i] == blanks[i];
    assert blanks != [] && rest != [] ==> t[|blanks|] == rest[0];
    forall i | |blanks| < i < |t| && t[i] == '\n' ensures !IsBlank(t[i - 1]) {
      assert t[i] == rest[i - |blanks|] && t[i - 1] == rest[i - 1 - |blanks|];
    }
  }

  /** Text with no blank before a newline passes through the trimming pass unchanged. */
  lemma {:induction false} TrimKeeps(s: string)
    requires NoBlankBeforeNewline(s)
    ensures TrimBlanksBeforeNewline(s) == s
    decreases |s|
  {
    if s != [] {
      if !IsBlank(s[0]) {
        NoBlankBeforeNewlineSuffix(s, 1);
        TrimKeeps(s[1..]);
        assert s == [s[0]] + s[1..];
      } else {
        var n := BlankRun(s);
        assert !(n < |s| && s[n] == '\n') by {
          if n < |s| {
            assert IsBlank(s[n - 1]);
          }
        }
        NoBlankBeforeNewlineSuffix(s, n);
        TrimKeeps(s[n..]);
        assert s == s[..n] + s[n..];
      }
    }
  }

  lemma NoBlankBeforeNewlineSuffix(s: string, k: nat)
    requires k <= |s| && NoBlankBeforeNewline(s)
    ensures NoBlankBeforeNewline(s[k..])
  {
    var t := s[k..];
    forall i | 0 < i < |t| && t[i] == '\n' ensures !IsBlank(t[i - 1]) {
      assert t[i] == s[k + i] && t[i - 1] == s[k + i - 1];
    }
  }

  // -------------------------------------------------------- newline runs

  /** The length of the run of newlines `s` starts with. */
  function NewlineRun(s: string): (n: nat)
    ensures n <= |s| && (n < |s| ==> s[n] != '\n')
    ensures forall i | 0 <= i < n :: s[i] == '\n'
  {
    if s != [] && s[0] == '\n' then 1 + NewlineRun(s[1..]) else 0
  }

  /** `replaceAll("\\n{3,}", "\n\n")`: a run of three or more newlines becomes two. */
  function CollapseNewlines(s: string): string
    decreases |s|
  {
    if s == [] then []
    else if s[0] != '\n' then [s[0]] + CollapseNewlines(s[1..])
    else
      var n := NewlineRun(s);
      (if n >= 3 then "\n\n" else s[..n]) + CollapseNewlines(s[n..])
  }

  /** No three newlines in a row, that is, at most one empty line between two lines. */
  predicate NoTripleNewline(s: string)
  {
    forall i | 0 <= i && i + 2 < |s| :: !(s[i] == '\n' && s[i + 1] == '\n' && s[i + 2] == '\n')
  }

  /** Collapsing keeps the first character. */
  lemma CollapseStart(s: string)
    requires s != []
    ensures CollapseNewlines(s) != [] && CollapseNewlines(s)[0] == s[0]
  {
  }

  /**
   * The collapsing pass leaves no three newlines in a row, never lengthens
   * the text, introduces no CR and puts no blank before a newline.
   */
  lemma {:induction false} CollapseSpec(s: string)
    ensures NoTripleNewline(CollapseNewlines(s))
    ensures |CollapseNewlines(s)| <= |s|
    ensures '\r' !in s ==> '\r' !in CollapseNewlines(s)
    ensures NoBlankBeforeNewline(s) ==> NoBlankBeforeNewline(CollapseNewlines(s))
    decreases |s|
  {
    if s == [] {
    } else if s[0] != '\n' {
      var rest := CollapseNewlines(s[1..]);
      CollapseSpec(s[1..]);
      SuffixNoCr(s, 1);
      if NoBlankBeforeNewline(s) {
        NoBlankBeforeNewlineSuffix(s, 1);
        if |s| > 1 {
          CollapseStart(s[1..]);
        }
        NoBlankBeforeNewlineCons(s[0], rest);
      }
      NoTripleCons(s[0], rest);
    } else {
      var n := NewlineRun(s);
      var head: string := if n >= 3 then "\n\n" else s[..n];
      var rest := CollapseNewlines(s[n..]);
      CollapseSpec(s[n..]);
      SuffixNoCr(s, n);
      if n < |s| {
        CollapseStart(s[n..]);
      }
      assert forall c | c in s[..n] :: c in s;
      NewlinesThenRest(head, rest);
      if NoBlankBeforeNewline(s) {
        NoBlankBeforeNewlineSuffix(s, n);
      }
    }
  }

  lemma NoTripleCons(c: char, rest: string)
    requires NoTripleNewline(rest) && c != '\n'
    ensures NoTripleNewline([c] + rest)
  {
    var t := [c] + rest;
    forall i | 0 <= i && i + 2 < |t| ensures !(t[i] == '\n' && t[i + 1] == '\n' && t[i + 2] == '\n') {
      if i > 0 {
        assert t[i] == rest[i - 1] && t[i + 1] == rest[i] && t[i + 2] == rest[i + 1];
      }
    }
  }

  /** At most two newlines followed by text that starts with anything else. */
  lemma NewlinesThenRest(head: string, rest: string)
    requires 1 <= |head| <= 2 && forall i | 0 <= i < |head| :: head[i] == '\n'
    requires NoTripleNewline(rest) && (rest != [] ==> rest[0] != '\n')
    ensures NoTripleNewline(head + rest)
    ensures NoBlankBeforeNewline(rest) ==> NoBlankBeforeNewline(head + rest)
  {
    var t := head + rest;
    forall i | 0 <= i && i + 2 < |t| ensures !(t[i] == '\n' && t[i + 1] == '\n' && t[i + 2] == '\n') {
      if i < |head| {
        assert i <= |head| <= i + 2;
      } else {
        assert t[i] == rest[i - |head|] && t[i + 1] == rest[i + 1 - |head|] && t[i + 2] == rest[i + 2 - |head|];
      }
    }
    if NoBlankBeforeNewline(rest) {
      forall i | 0 < i < |t| && t[i] == '\n' ensures !IsBlank(t[i - 1]) {
        if i <= |head| {
          assert t[i - 1] == '\n';
        } else {
          assert t[i] == rest[i - |head|] && t[i - 1] == rest[i - 1 - |head|];
        }
      }
    }
  }

  /** Text without three newlines in a row passes through the collapsing pass unchanged. */
  lemma {:induction false} CollapseKeeps(s: string)
    requires NoTripleNewline(s)
    ensures CollapseNewlines(s) == s
    decreases |s|
  {
    if s != [] && s[0] != '\n' {
      NoTripleSuffix(s, 1);
      CollapseKeeps(s[1..]);
      assert s == [s[0]] + s[1..];
    } else if s != [] {
      var n := NewlineRun(s);
      assert n < 3 by {
        if 2 < |s| {
          assert !(s[0] == '\n' && s[1] == '\n' && s[2] == '\n');
        }
      }
      NoTripleSuffix(s, n);
      CollapseKeeps(s[n..]);
      assert CollapseNewlines(s) == s[..n] + CollapseNewlines(s[n..]);
      assert s == s[..n] + s[n..];
    }
  }

  lemma NoTripleSuffix(s: string, k: nat)
    requires k <= |s| && NoTripleNewline(s)
    ensures NoTripleNewline(s[k..])
  {
    var t := s[k..];
    forall i | 0 <= i && i + 2 < |t| ensures !(t[i] == '\n' && t[i + 1] == '\n' && t[i + 2] == '\n') {
      assert t[i] == s[k + i] && t[i + 1] == s[k + i + 1] && t[i + 2] == s[k + i + 2];
    }
  }

  // ------------------------------------------------------------ the whole

  /** `normalizeWhitespace(content)`: the four passes in order. */
  function NormalizeWhitespace(content: string): string
  {
    CollapseNewlines(TrimBlanksBeforeNewline(CrToLf(CrLfToLf(content))))
  }

  /** What a normalised file looks like. */
  predicate IsNormal(s: string)
  {
    '\r' !in s && NoBlankBeforeNewline(s) && NoTripleNewline(s)
  }

  /**
   * The result holds no CR, no blank before a newline and no three newlines
   * in a row, and is never longer than the input.
   */
  lemma NormalizeSpec(content: string)
    ensures IsNormal(NormalizeWhitespace(content))
    ensures |NormalizeWhitespace(content)| <= |content|
  {
    var unix := CrToLf(CrLfToLf(content));
    var trimmed := TrimBlanksBeforeNewline(unix);
    TrimSpec(unix);
    CollapseSpec(trimmed);
  }

  /** A file already in normal form is returned as it is, so `execute` does not rewrite it. */
  lemma NormalizeKeeps(content: string)
    requires IsNormal(content)
    ensures NormalizeWhitespace(content) == content
  {
    LineEndingsKeep(content);
    TrimKeeps(content);
    CollapseKeeps(content);
  }

  /** Normalising twice changes nothing more. */
  lemma NormalizeIdempotent(content: string)
    ensures NormalizeWhitespace(NormalizeWhitespace(content)) == NormalizeWhitespace(content)
  {
    NormalizeSpec(content);
    NormalizeKeeps(NormalizeWhitespace(content));
  }

  /** A CRLF pair and a lone CR each end exactly one line. */
  lemma LineEndingsExample()
    ensures CrToLf(CrLfToLf("a\r\n\rb")) == "a\n\nb"
  {
    assert CrLfToLf("a\r\n\rb") == "a\n\rb";
  }

  /** Blanks before a newline go; blanks at the end of the text without a final newline stay. */
  lemma TrimExample()
    ensures TrimBlanksBeforeNewline("a \t\nb ") == "a\nb "
  {
    var tail := "b ";
    assert BlankRun(tail[1..]) == 1;
    assert TrimBlanksBeforeNewline(tail) == [tail[0]] + TrimBlanksBeforeNewline(tail[1..]) == tail;
    var s := "a \t\nb ";
    assert BlankRun(s[3..]) == 0;
    assert BlankRun(s[2..]) == 1;
    assert BlankRun(s[1..]) == 2;
    assert s[1..][2] == '\n' && s[1..][3..] == tail;
    assert TrimBlanksBeforeNewline(s[1..]) == "\n" + tail;
  }

  /** Four newlines, three empty lines, leave a single empty line. */
  lemma CollapseExample()
    ensures CollapseNewlines("a\n\n\n\nb") == "a\n\nb"
  {
    assert NewlineRun("\n\n\n\nb") == 4;
  }
}
