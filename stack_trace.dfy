/** `Logger.genStackTrace` and `Logger.descCaller`: the lines of an error's
    stack text that look like a function call, and the description of the
    caller built from them. */
module StackTrace {
  import opened Wrappers
  import opened Seqs

  /** The single entry returned when the error has no stack text. */
  const NO_STACK := "No stack trace, (Firefox only)"

  /** The characters matched by `\s` in a JavaScript regular expression:
      white space and line terminators. */
  predicate IsSpace(c: char)
  {
    c == '\t' || c == '\n' || c == '\U{000B}' || c == '\U{000C}' || c == '\r' || c == ' '
    || c == '\U{00A0}' || c == '\U{1680}' || ('\U{2000}' <= c <= '\U{200A}')
    || c == '\U{2028}' || c == '\U{2029}' || c == '\U{202F}' || c == '\U{205F}'
    || c == '\U{3000}' || c == '\U{FEFF}'
  }

  /** The character class `[A-Za-z0-9\-_\$]`. */
  predicate IsNameChar(c: char)
  {
    ('A' <= c <= 'Z') || ('a' <= c <= 'z') || ('0' <= c <= '9') || c == '-' || c == '_' || c == '$'
  }

  ghost predicate AllSpace(s: string)
  {
    forall i :: 0 <= i < |s| ==> IsSpace(s[i])
  }

  ghost predicate AllName(s: string)
  {
    forall i :: 0 <= i < |s| ==> IsNameChar(s[i])
  }

  /** What the anchored pattern `^\s*[A-Za-z0-9\-_\$]+\(` accepts: white
      space, then at least one name character, then an opening parenthesis. */
  ghost predicate MatchesCallPattern(line: string)
  {
    exists k, m :: 0 <= k < m < |line| && AllSpace(line[..k]) && AllName(line[k..m]) && line[m] == '('
  }

  /** The first position at or after `i` that is not white space. */
  function SkipSpace(s: string, i: nat): (r: nat)
    requires i <= |s|
    ensures i <= r <= |s|
    ensures forall j :: i <= j < r ==> IsSpace(s[j])
    ensures r == |s| || !IsSpace(s[r])
    decreases |s| - i
  {
    if i < |s| && IsSpace(s[i]) then SkipSpace(s, i + 1) else i
  }

  /** The first position at or after `i` that is not a name character. */
  function SkipName(s: string, i: nat): (r: nat)
    requires i <= |s|
    ensures i <= r <= |s|
    ensures forall j :: i <= j < r ==> IsNameChar(s[j])
    ensures r == |s| || !IsNameChar(s[r])
    decreases |s| - i
  {
    if i < |s| && IsNameChar(s[i]) then SkipName(s, i + 1) else i
  }

  /** `line.match(funcCallPattern)` is truthy: the pattern is matched from
      the start of the line, and white space and name characters do not
      overlap, so one left-to-right scan decides it. */
  predicate IsCallLine(line: string)
  {
    var k := SkipSpace(line, 0);
    var m := SkipName(line, k);
    k < m < |line| && line[m] == '('
  }

  /** The scan accepts exactly the lines of the pattern. */
  lemma CallLineMatches(line: string)
    ensures IsCallLine(line) <==> MatchesCallPattern(line)
  {
    var k := SkipSpace(line, 0);
    var m := SkipName(line, k);
    if IsCallLine(line) {
      assert AllSpace(line[..k]) && AllName(line[k..m]);
    }
    if MatchesCallPattern(line) {
      var k', m' :| 0 <= k' < m' < |line| && AllSpace(line[..k']) && AllName(line[k'..m']) && line[m'] == '(';
      assert IsNameChar(line[k'..m'][0]);
      assert k == k';
      assert m == m';
    }
  }

  /** What `genStackTrace(err)` returns. `errGiven` says whether an error was
      passed; `stack` is the `stack` property of the error used, `None` when
      it is `undefined`. Without a stack (missing or empty) the result is the
      fixed message; otherwise it is the call lines of the stack, and when no
      error was passed the first of them (the call to `genStackTrace` itself)
      is shifted off. */
  function StackTraceOf(errGiven: bool, stack: Option<string>): seq<string>
  {
    if stack == None || stack.value == "" then [NO_STACK]
    else
      var calls := Filter(Split(stack.value, '\n'), IsCallLine);
      if !errGiven && |calls| > 0 then calls[1..] else calls
  }

  /** `genStackTrace`: pick the call lines of the stack, then drop the
      first one when no error was passed. */
  method GenStackTrace(errGiven: bool, stack: Option<string>) returns (stackTrace: seq<string>)
    ensures stackTrace == StackTraceOf(errGiven, stack)
  {
    stackTrace := [];
    if stack == None || stack.value == "" {
      stackTrace := stackTrace + [NO_STACK];
    } else {
      var lines := Split(stack.value, '\n');
      stackTrace := PushCallLines(lines);
      if !errGiven && |stackTrace| > 0 {
        stackTrace := stackTrace[1..];
      }
    }
  }

  /** The loop of `genStackTrace` that pushes each call line in turn. */
  method PushCallLines(lines: seq<string>) returns (stackTrace: seq<string>)
    ensures stackTrace == Filter(lines, IsCallLine)
  {
    stackTrace := [];
    for i := 0 to |lines|
      invariant stackTrace == Filter(lines[..i], IsCallLine)
    {
      assert lines[..i + 1][..i] == lines[..i];
      if IsCallLine(lines[i]) {
        stackTrace := stackTrace + [lines[i]];
      }
    }
    assert lines[..|lines|] == lines;
  }

  /** Without a stack the result is the one fixed message. */
  lemma NoStackMessage(errGiven: bool, stack: Option<string>)
    requires stack == None || stack == Some("")
    ensures StackTraceOf(errGiven, stack) == [NO_STACK]
  {
  }

  /** With a stack, every entry is a line of the stack that has the shape of
      a function call. */
  lemma StackTraceEntries(errGiven: bool, s: string)
    requires s != ""
    ensures forall l :: l in StackTraceOf(errGiven, Some(s)) ==>
      l in Split(s, '\n') && MatchesCallPattern(l)
  {
    var calls := Filter(Split(s, '\n'), IsCallLine);
    forall l | l in StackTraceOf(errGiven, Some(s))
      ensures l in Split(s, '\n') && MatchesCallPattern(l)
    {
      assert l in calls;
      FilterMembers(Split(s, '\n'), IsCallLine, l);
      CallLineMatches(l);
    }
  }

  /** With a stack and an error given, every call-shaped line of the stack
      is an entry; without an error given the entries are the same list with
      its first element removed, and nothing is removed from an empty list. */
  lemma StackTraceComplete(s: string)
    requires s != ""
    ensures forall l :: l in Split(s, '\n') && MatchesCallPattern(l) ==> l in StackTraceOf(true, Some(s))
    ensures var t := StackTraceOf(true, Some(s));
      StackTraceOf(false, Some(s)) == if |t| == 0 then [] else t[1..]
  {
    forall l | l in Split(s, '\n') && MatchesCallPattern(l)
      ensures l in StackTraceOf(true, Some(s))
    {
      CallLineMatches(l);
      FilterKeeps(Split(s, '\n'), IsCallLine, l);
    }
  }

  /** A stack that is a single call-shaped line gives that line when an
      error is passed and nothing when it is not. */
  lemma SingleCallLine(line: string)
    requires '\n' !in line && IsCallLine(line)
    ensures StackTraceOf(true, Some(line)) == [line]
    ensures StackTraceOf(false, Some(line)) == []
  {
    SplitNoSeparator(line, '\n');
    assert Filter([line], IsCallLine) == [line] by {
      assert [line][..0] == [];
    }
  }

  /** What `descCaller()` returns when the fresh error's stack is `stack`:
      the trace has the describing function's call first, then the client
      function's, then the caller's. */
  function DescCaller(stack: Option<string>): (r: string)
    ensures var t := StackTraceOf(true, stack);
      && (|t| == 0 <==> r == "no client function")
      && (|t| == 1 <==> r == "no caller function")
      && (|t| == 2 <==> r == "undefined caller function")
      && (|t| >= 3 ==> r == "caller: " + t[2])
  {
    var t := StackTraceOf(true, stack);
    if |t| == 0 then "no client function"
    else
      var t1 := t[1..];
      if |t1| == 0 then "no caller function"
      else
        var t2 := t1[1..];
        if |t2| == 0 then "undefined caller function"
        else
          var r := "caller: " + t2[0];
          assert r[0] == 'c';
          r
  }

  /** Without a stack the one fixed message is taken for the describing
      function's own call, so the caller is reported missing. */
  lemma DescCallerNoStack()
    ensures DescCaller(None) == "no caller function"
  {
  }
}
