/**
 * The trimming pass of `SpotlessMojo.normalizeWhitespace` read line by line:
 * a reference definition that splits the text at its newlines, strips the
 * trailing blanks of every line a newline ends, and joins the lines again;
 * and the proof that the regular-expression pass computes exactly that.
 */
module LineTrim {
  import opened Whitespace

  /** The line `s` starts with: the characters before its first newline, or all of `s`. */
  function LineLength(s: string): (n: nat)
    ensures n <= |s| && (n < |s| ==> s[n] == '\n')
    ensures forall i | 0 <= i < n :: s[i] != '\n'
  {
    if s == [] || s[0] == '\n' then 0 else 1 + LineLength(s[1..])
  }

  /** A line without the spaces and tabs it ends with. */
  function StripTrailing(line: string): string
  {
    if line != [] && IsBlank(line[|line| - 1]) then StripTrailing(line[..|line| - 1]) else line
  }

  /** Stripping removes a suffix made only of blanks, and nothing more. */
  lemma {:induction false} StripTrailingSpec(line: string)
    ensures StripTrailing(line) <= line
    ensures forall i | |StripTrailing(line)| <= i < |line| :: IsBlank(line[i])
    ensures StripTrailing(line) == [] || !IsBlank(StripTrailing(line)[|StripTrailing(line)| - 1])
    decreases |line|
  {
    if line != [] && IsBlank(line[|line| - 1]) {
      StripTrailingSpec(line[..|line| - 1]);
    }
  }

  /**
   * What trimming means line by line: every line that a newline ends loses
   * its trailing spaces and tabs; all other characters, and the last line
   * (which no newline ends), are kept.
   */
  function TrimLines(s: string): string
    decreases |s|
  {
    var n := LineLength(s);
    if n == |s| then s else StripTrailing(s[..n]) + "\n" + TrimLines(s[n + 1..])
  }

  /** Stripping a line that has a non-blank at `k` keeps everything before `k`. */
  lemma {:induction false} StripFrom(line: string, k: nat)
    requires k < |line| && !IsBlank(line[k])
    ensures StripTrailing(line) == line[..k] + StripTrailing(line[k..])
    decreases |line|
  {
    var last := |line| - 1;
    if IsBlank(line[last]) {
      var init := line[..last];
      StripFrom(init, k);
      assert line[k..][..|line[k..]| - 1] == init[k..];
      assert init[..k] == line[..k];
    } else {
      assert line[..k] + line[k..] == line;
    }
  }

  /** A text with no newline passes through the trimming pass unchanged. */
  lemma {:induction false} TrimNoNewline(s: string)
    requires '\n' !in s
    ensures TrimBlanksBeforeNewline(s) == s
    decreases |s|
  {
    if s != [] {
      assert forall k | 0 < k <= |s| :: '\n' !in s[k..] by {
        forall k | 0 < k <= |s| ensures '\n' !in s[k..] {
          assert forall c | c in s[k..] :: c in s;
        }
      }
      if !IsBlank(s[0]) {
        TrimNoNewline(s[1..]);
        assert s == [s[0]] + s[1..];
      } else {
        var n := BlankRun(s);
        assert n < |s| ==> s[n] in s;
        TrimNoNewline(s[n..]);
        assert s == s[..n] + s[n..];
      }
    }
  }

  /** The first line of a text loses exactly its trailing blanks. */
  lemma {:induction false} TrimFirstLine(line: string, rest: string)
    requires '\n' !in line
    ensures TrimBlanksBeforeNewline(line + "\n" + rest) == StripTrailing(line) + "\n" + TrimBlanksBeforeNewline(rest)
    decreases |line|
  {
    var s := line + "\n" + rest;
    if line == [] {
      assert s == "\n" + rest;
    } else if !IsBlank(line[0]) {
      TrimNonBlankLine(s, line, rest);
    } else {
      var n := BlankRun(s);
      assert forall i | 0 <= i < |line| :: s[i] == line[i];
      assert s[|line|] == '\n';
      if n >= |line| {
        TrimBlankLine(s, line, rest);
      } else {
        TrimBlanksThenText(s, line, rest, n);
      }
    }
  }

  lemma {:induction false} TrimNonBlankLine(s: string, line: string, rest: string)
    requires s == line + "\n" + rest
    requires '\n' !in line && line != [] && !IsBlank(line[0])
    ensures TrimBlanksBeforeNewline(s) == StripTrailing(line) + "\n" + TrimBlanksBeforeNewline(rest)
    decreases |line|, 0
  {
    assert '\n' !in line[1..] by {
      assert forall c | c in line[1..] :: c in line;
    }
    assert s[0] == line[0] && s[1..] == line[1..] + "\n" + rest;
    TrimUnfoldNonBlank(s);
    TrimFirstLine(line[1..], rest);
    StripCons(line);
  }

  /** Stripping a line that starts with a non-blank keeps that character. */
  lemma {:induction false} StripCons(line: string)
    requires line != [] && !IsBlank(line[0])
    ensures StripTrailing(line) == [line[0]] + StripTrailing(line[1..])
    decreases |line|
  {
    var last := |line| - 1;
    if last > 0 && IsBlank(line[last]) {
      var init := line[..last];
      StripCons(init);
      assert line[1..][..|line[1..]| - 1] == init[1..];
    } else if last > 0 {
      assert line[1..][|line[1..]| - 1] == line[last];
      assert [line[0]] + line[1..] == line;
    }
  }

  lemma {:induction false} TrimBlankLine(s: string, line: string, rest: string)
    requires s == line + "\n" + rest
    requires '\n' !in line && line != [] && IsBlank(line[0])
    requires BlankRun(s) >= |line|
    ensures TrimBlanksBeforeNewline(s) == StripTrailing(line) + "\n" + TrimBlanksBeforeNewline(rest)
  {
    BlankLineFacts(s, line, rest);
    StripAllBlank(line);
    TrimUnfoldNewline(s, |line|);
  }

  lemma BlankLineFacts(s: string, line: string, rest: string)
    requires s == line + "\n" + rest
    requires BlankRun(s) >= |line|
    ensures BlankRun(s) == |line| && s[|line|] == '\n' && s[|line| + 1..] == rest
    ensures forall i | 0 <= i < |line| :: IsBlank(line[i])
  {
    assert s[|line|] == '\n';
    forall i | 0 <= i < |line| ensures IsBlank(line[i]) {
      assert line[i] == s[i];
    }
  }

  /** A blank run that a newline ends is dropped together with nothing else. */
  lemma {:induction false} TrimUnfoldNewline(s: string, n: nat)
    requires s != [] && IsBlank(s[0]) && n == BlankRun(s) && n < |s| && s[n] == '\n'
    ensures TrimBlanksBeforeNewline(s) == "\n" + TrimBlanksBeforeNewline(s[n + 1..])
  {
  }

  /** A blank run that something other than a newline ends is kept. */
  lemma {:induction false} TrimUnfoldText(s: string, n: nat)
    requires s != [] && IsBlank(s[0]) && n == BlankRun(s) && n < |s| && s[n] != '\n'
    ensures TrimBlanksBeforeNewline(s) == s[..n] + TrimBlanksBeforeNewline(s[n..])
  {
  }

  lemma {:induction false} TrimBlanksThenText(s: string, line: string, rest: string, n: nat)
    requires s == line + "\n" + rest
    requires '\n' !in line && line != [] && IsBlank(line[0])
    requires n == BlankRun(s) && n < |line|
    ensures TrimBlanksBeforeNewline(s) == StripTrailing(line) + "\n" + TrimBlanksBeforeNewline(rest)
    decreases |line|, 0
  {
    var tail := line[n..];
    assert s[n] == line[n] && line[n] in line;
    assert '\n' !in tail by {
      assert forall c | c in tail :: c in line;
    }
    assert s[n..] == tail + "\n" + rest;
    assert s[..n] == line[..n];
    TrimUnfoldText(s, n);
    TrimFirstLine(tail, rest);
    StripFrom(line, n);
    var head, stripped, after := line[..n], StripTrailing(tail), TrimBlanksBeforeNewline(rest);
    calc {
      TrimBlanksBeforeNewline(s);
      head + TrimBlanksBeforeNewline(s[n..]);
      head + (stripped + "\n" + after);
      { assert head + (stripped + "\n" + after) == (head + stripped) + "\n" + after; }
      StripTrailing(line) + "\n" + after;
    }
  }

  lemma {:induction false} StripAllBlank(line: string)
    requires forall i | 0 <= i < |line| :: IsBlank(line[i])
    ensures StripTrailing(line) == []
    decreases |line|
  {
    if line != [] {
      StripAllBlank(line[..|line| - 1]);
    }
  }

  /** The trimming pass is the line-by-line trimming: blanks go only where a newline follows them. */
  lemma {:induction false} TrimIsTrimLines(s: string)
    ensures TrimBlanksBeforeNewline(s) == TrimLines(s)
    decreases |s|
  {
    var n := LineLength(s);
    if n == |s| {
      assert '\n' !in s by {
        forall c | c in s ensures c != '\n' {
          var i :| 0 <= i < |s| && s[i] == c;
        }
      }
      TrimNoNewline(s);
    } else {
      var line, rest := s[..n], s[n + 1..];
      assert s == line + "\n" + rest;
      assert '\n' !in line by {
        forall c | c in line ensures c != '\n' {
          var i :| 0 <= i < |line| && line[i] == c;
        }
      }
      TrimFirstLine(line, rest);
      TrimIsTrimLines(rest);
    }
  }
}
