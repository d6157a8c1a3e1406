/** Command-line helpers of pyltc/util/cmdline.py: the quote-aware tokenizer that
    turns a command string into an argument vector, the message of a failed
    command, and the decision of `execute` to raise or return. The process itself
    is not modelled: its return code and output are inputs. */
module CmdLine {
  import opened Wrappers
  import opened Text

  const QUOTE: char := '"'

  /** Raised for a command string with an odd number of double quotes. */
  datatype CmdError = UnbalancedQuotes(command: string)

  /** The quote-free prefix of `a + t`, when `a` has no quote, is `a` followed by
      that of `t`. */
  lemma {:induction false} UpToAfterPlain(a: string, t: string)
    requires Lacks(a, QUOTE)
    ensures UpTo(a + t, QUOTE) == a + UpTo(t, QUOTE)
  {
    if a == [] {
      assert a + t == t;
    } else {
      assert (a + t)[1..] == a[1..] + t;
      UpToAfterPlain(a[1..], t);
    }
  }

  /** `s.split('"', 2)` on a string with at least two quotes: the text before the
      first quote, the text between the first two, and the rest. */
  function SplitQuoted(s: string): (r: (string, string, string))
    requires CountChar(s, QUOTE) >= 2
    ensures s == r.0 + [QUOTE] + r.1 + [QUOTE] + r.2
    ensures Lacks(r.0, QUOTE) && Lacks(r.1, QUOTE)
    ensures CountChar(r.2, QUOTE) == CountChar(s, QUOTE) - 2
  {
    var left := UpTo(s, QUOTE);
    UpToFound(s, QUOTE);
    var after := s[|left| + 1..];
    assert s == left + [QUOTE] + after;
    CountCharZero(left, QUOTE);
    CountCharAppend(left + [QUOTE], after, QUOTE);
    CountCharAppend(left, [QUOTE], QUOTE);
    var mid := UpTo(after, QUOTE);
    UpToFound(after, QUOTE);
    var right := after[|mid| + 1..];
    assert after == mid + [QUOTE] + right;
    CountCharZero(mid, QUOTE);
    CountCharAppend(mid + [QUOTE], right, QUOTE);
    CountCharAppend(mid, [QUOTE], QUOTE);
    (left, mid, right)
  }

  /** The three pieces are determined by the string. */
  lemma {:induction false} SplitQuotedOf(l: string, m: string, r: string)
    requires Lacks(l, QUOTE) && Lacks(m, QUOTE)
    ensures CountChar(l + [QUOTE] + m + [QUOTE] + r, QUOTE) >= 2
    ensures SplitQuoted(l + [QUOTE] + m + [QUOTE] + r) == (l, m, r)
  {
    var after := m + [QUOTE] + r;
    var s := l + [QUOTE] + after;
    assert s == l + [QUOTE] + m + [QUOTE] + r;
    CountCharAppend(l + [QUOTE], after, QUOTE);
    CountCharAppend(l, [QUOTE], QUOTE);
    CountCharAppend(m + [QUOTE], r, QUOTE);
    CountCharAppend(m, [QUOTE], QUOTE);
    CountCharZero(l, QUOTE);
    CountCharZero(m, QUOTE);
    UpToOf(l, QUOTE, after);
    assert s[|l| + 1..] == after;
    UpToOf(m, QUOTE, r);
    assert after[|m| + 1..] == r;
  }

  /** `_construct_cmd_list`: text outside double quotes is split on whitespace,
      each quoted segment becomes one argument without its quotes, in order. */
  function ConstructCmdList(command: string): (r: Result<seq<string>, CmdError>)
    ensures r.Failure? <==> CountChar(command, QUOTE) % 2 != 0
    ensures CountChar(command, QUOTE) == 0 ==> r == Success(SplitWs(command))
    decreases |command|
  {
    var q := CountChar(command, QUOTE);
    if q % 2 != 0 then Failure(UnbalancedQuotes(command))
    else if q == 0 then Success(SplitWs(command))
    else
      var (left, mid, right) := SplitQuoted(command);
      var rest := ConstructCmdList(right);
      Success(SplitWs(left) + [mid] + rest.value)
  }

  /** One step of the tokenizer: the words before the first quote, the quoted
      segment, then the tokens of the rest. */
  lemma {:induction false} ConstructQuoted(l: string, m: string, r: string)
    requires Lacks(l, QUOTE) && Lacks(m, QUOTE)
    requires CountChar(r, QUOTE) % 2 == 0
    ensures ConstructCmdList(r).Success?
    ensures ConstructCmdList(l + [QUOTE] + m + [QUOTE] + r) == Success(SplitWs(l) + [m] + ConstructCmdList(r).value)
  {
    SplitQuotedOf(l, m, r);
    var s := l + [QUOTE] + m + [QUOTE] + r;
    var q := CountChar(s, QUOTE);
    assert q == CountChar(r, QUOTE) + 2;
    assert q % 2 == 0;
    assert q != 0;
    assert SplitQuoted(s) == (l, m, r);
    var rest := ConstructCmdList(r);
    assert ConstructCmdList(s) == Success(SplitWs(l) + [m] + rest.value);
  }

  /** One argument as a caller would write it: a bare word, or a phrase in double
      quotes. */
  datatype Arg = Bare(word: string) | Quoted(phrase: string) {
    predicate WellFormed() {
      match this
      case Bare(w) => w != [] && NoSpace(w) && Lacks(w, QUOTE)
      case Quoted(p) => Lacks(p, QUOTE)
    }

    function Text(): string {
      match this
      case Bare(w) => w
      case Quoted(p) => [QUOTE] + p + [QUOTE]
    }

    function Value(): string {
      match this
      case Bare(w) => w
      case Quoted(p) => p
    }
  }

  function ArgTexts(args: seq<Arg>): (r: seq<string>)
    ensures |r| == |args|
    ensures forall k :: 0 <= k < |args| ==> r[k] == args[k].Text()
  {
    if args == [] then [] else [args[0].Text()] + ArgTexts(args[1..])
  }

  function ArgValues(args: seq<Arg>): (r: seq<string>)
    ensures |r| == |args|
    ensures forall k :: 0 <= k < |args| ==> r[k] == args[k].Value()
  {
    if args == [] then [] else [args[0].Value()] + ArgValues(args[1..])
  }

  /** The command string that writes `args` separated by single spaces. */
  function CommandText(args: seq<Arg>): string {
    Join(" ", ArgTexts(args))
  }

  /** Text without quotes in front of a space does not disturb the tokenizer: its
      words come first, then the tokens of the rest. */
  lemma {:induction false} ConstructAfterPlain(a: string, t: string)
    requires Lacks(a, QUOTE)
    requires CountChar(t, QUOTE) % 2 == 0
    ensures ConstructCmdList(t).Success?
    ensures ConstructCmdList(a + " " + t) == Success(SplitWs(a) + ConstructCmdList(t).value)
  {
    var q := CountChar(t, QUOTE);
    if q == 0 {
      CountAfterPlain(a, t);
      SplitWsSpace(a, t);
    } else {
      var (l, m, r) := SplitQuoted(t);
      AfterPlainQuoted(a, l, m, r);
    }
  }

  lemma CountAfterPlain(a: string, t: string)
    requires Lacks(a, QUOTE)
    ensures CountChar(a + " " + t, QUOTE) == CountChar(t, QUOTE)
  {
    CountCharZero(a, QUOTE);
    CountCharAppend(a, " ", QUOTE);
    CountCharAppend(a + " ", t, QUOTE);
  }

  lemma {:induction false} AfterPlainQuoted(a: string, l: string, m: string, r: string)
    requires Lacks(a, QUOTE) && Lacks(l, QUOTE) && Lacks(m, QUOTE)
    requires CountChar(r, QUOTE) % 2 == 0
    ensures ConstructCmdList(l + [QUOTE] + m + [QUOTE] + r).Success?
    ensures ConstructCmdList(a + " " + (l + [QUOTE] + m + [QUOTE] + r))
         == Success(SplitWs(a) + ConstructCmdList(l + [QUOTE] + m + [QUOTE] + r).value)
  {
    var t := l + [QUOTE] + m + [QUOTE] + r;
    var l' := a + " " + l;
    var rest := ConstructCmdList(r);
    assert a + " " + t == l' + [QUOTE] + m + [QUOTE] + r by {
      PrefixRegroup(a + " ", l, m, r);
    }
    assert Lacks(l', QUOTE) by {
      LacksAppend(a, " ", QUOTE);
      LacksAppend(a + " ", l, QUOTE);
    }
    assert rest.Success? && ConstructCmdList(t) == Success(SplitWs(l) + [m] + rest.value) by {
      ConstructQuoted(l, m, r);
    }
    assert ConstructCmdList(a + " " + t) == Success(SplitWs(l') + [m] + rest.value) by {
      ConstructQuoted(l', m, r);
    }
    assert SplitWs(l') == SplitWs(a) + SplitWs(l) by {
      SplitWsSpace(a, l);
    }
    Regroup3(SplitWs(a), SplitWs(l), [m], rest.value);
  }

  lemma Regroup3<T>(x: seq<T>, y: seq<T>, z: seq<T>, w: seq<T>)
    ensures (x + y) + z + w == x + (y + z + w)
  {
  }

  /** Moving a prefix inside the first of the quote-separated pieces. */
  lemma PrefixRegroup(p: string, l: string, m: string, r: string)
    ensures p + (l + [QUOTE] + m + [QUOTE] + r) == (p + l) + [QUOTE] + m + [QUOTE] + r
  {
  }

  /** A well-formed argument alone tokenizes to its value. */
  lemma {:induction false} LastArg(x: Arg)
    requires x.WellFormed()
    ensures ConstructCmdList(x.Text()) == Success([x.Value()])
  {
    match x
    case Bare(w) =>
      CountCharZero(w, QUOTE);
      SplitWsOfWord(w);
    case Quoted(p) =>
      var e: string := [];
      assert x.Text() == e + [QUOTE] + p + [QUOTE] + e;
      assert ConstructCmdList(e) == Success([]) by {
        assert CountChar(e, QUOTE) == 0;
        SplitWsEmpty();
      }
      assert SplitWs(e) == [] by {
        SplitWsEmpty();
      }
      ConstructQuoted(e, p, e);
      assert SplitWs(e) + [p] + ConstructCmdList(e).value == [p];
  }

  /** A bare word followed by a space and more text. */
  lemma ConsBare(w: string, t: string)
    requires w != [] && NoSpace(w) && Lacks(w, QUOTE)
    requires CountChar(t, QUOTE) % 2 == 0
    ensures ConstructCmdList(t).Success?
    ensures ConstructCmdList(w + " " + t) == Success([w] + ConstructCmdList(t).value)
  {
    ConstructAfterPlain(w, t);
    SplitWsOfWord(w);
  }

  /** A leading space changes no token. */
  lemma SpaceFront(t: string)
    requires CountChar(t, QUOTE) % 2 == 0
    ensures CountChar(" " + t, QUOTE) % 2 == 0
    ensures ConstructCmdList(t).Success? && ConstructCmdList(" " + t) == ConstructCmdList(t)
  {
    var e: string := [];
    CountCharAppend(" ", t, QUOTE);
    ConstructAfterPlain(e, t);
    assert e + " " + t == " " + t;
    SplitWsEmpty();
    assert SplitWs(e) + ConstructCmdList(t).value == ConstructCmdList(t).value;
  }

  /** A quoted phrase at the very front is the first token. */
  lemma QuotedFront(p: string, u: string)
    requires Lacks(p, QUOTE)
    requires CountChar(u, QUOTE) % 2 == 0
    ensures ConstructCmdList(u).Success?
    ensures ConstructCmdList([QUOTE] + p + [QUOTE] + u) == Success([p] + ConstructCmdList(u).value)
  {
    var e: string := [];
    assert [QUOTE] + p + [QUOTE] + u == e + [QUOTE] + p + [QUOTE] + u;
    ConstructQuoted(e, p, u);
    SplitWsEmpty();
    assert SplitWs(e) + [p] + ConstructCmdList(u).value == [p] + ConstructCmdList(u).value;
  }

  /** A quoted phrase followed by a space and more text. */
  lemma ConsQuoted(p: string, t: string)
    requires Lacks(p, QUOTE)
    requires CountChar(t, QUOTE) % 2 == 0
    ensures ConstructCmdList(t).Success?
    ensures ConstructCmdList([QUOTE] + p + [QUOTE] + " " + t) == Success([p] + ConstructCmdList(t).value)
  {
    SpaceFront(t);
    QuotedFront(p, " " + t);
    assert [QUOTE] + p + [QUOTE] + " " + t == [QUOTE] + p + [QUOTE] + (" " + t);
  }

  /** A well-formed argument followed by a space and more text contributes its value
      in front of the tokens of that text. */
  lemma ConsArg(x: Arg, t: string)
    requires x.WellFormed()
    requires CountChar(t, QUOTE) % 2 == 0
    ensures ConstructCmdList(t).Success?
    ensures ConstructCmdList(x.Text() + " " + t) == Success([x.Value()] + ConstructCmdList(t).value)
  {
    if x.Bare? {
      ConsBare(x.word, t);
    } else {
      ConsQuoted(x.phrase, t);
    }
  }

  lemma {:induction false} CountQuotesOfCommandText(args: seq<Arg>)
    requires forall k :: 0 <= k < |args| ==> args[k].WellFormed()
    ensures CountChar(CommandText(args), QUOTE) % 2 == 0
  {
    if args != [] {
      var x := args[0];
      if x.Quoted? {
        CountCharZero(x.phrase, QUOTE);
        CountCharAppend([QUOTE], x.phrase, QUOTE);
        CountCharAppend([QUOTE] + x.phrase, [QUOTE], QUOTE);
      } else {
        CountCharZero(x.word, QUOTE);
      }
      if |args| > 1 {
        CountQuotesOfCommandText(args[1..]);
        assert ArgTexts(args[1..]) == ArgTexts(args)[1..];
        assert CommandText(args) == x.Text() + " " + CommandText(args[1..]);
        CountCharAppend(x.Text(), " ", QUOTE);
        CountCharAppend(x.Text() + " ", CommandText(args[1..]), QUOTE);
      }
    }
  }

  /** Writing well-formed arguments out and tokenizing the text gives back their
      values: bare words as they are, quoted phrases without their quotes. */
  lemma {:induction false} ConstructCommandText(args: seq<Arg>)
    requires forall k :: 0 <= k < |args| ==> args[k].WellFormed()
    ensures ConstructCmdList(CommandText(args)) == Success(ArgValues(args))
  {
    if args == [] {
      assert CountChar("", QUOTE) == 0;
    } else if |args| == 1 {
      assert CommandText(args) == args[0].Text();
      assert ArgValues(args) == [args[0].Value()];
      LastArg(args[0]);
    } else {
      var rest := args[1..];
      assert ArgTexts(rest) == ArgTexts(args)[1..];
      ConstructCommandText(rest);
      CountQuotesOfCommandText(rest);
      assert CommandText(args) == args[0].Text() + " " + CommandText(rest);
      ConsArg(args[0], CommandText(rest));
      assert ArgValues(args) == [args[0].Value()] + ArgValues(rest);
    }
  }

  // ---------------------------------------------------------------- failure message

  /** Python's `repr()` of a string: single quotes unless the text holds a
      single quote and no double quote; backslash, tab, newline, carriage
      return and the chosen quote are escaped with a backslash, and the
      non-printable characters below U+0100 as `\xhh`. */
  function Repr(s: string): (r: string)
    ensures |r| >= 2 && r[0] == r[|r| - 1] && (r[0] == '\'' || r[0] == '"')
  {
    var q := if !Lacks(s, '\'') && Lacks(s, '"') then '"' else '\'';
    [q] + Escape(s, q) + [q]
  }

  /** The characters below U+0100 that `repr()` shows as `\xhh`: the C0
      controls, DEL, the C1 controls, the no-break space and the soft hyphen. */
  predicate HexEscaped(c: char) {
    c < ' ' || ('\U{007F}' <= c <= '\U{00A0}') || c == '\U{00AD}'
  }

  /** How `repr()` shows one character inside quotes `q`. */
  function EscapeChar(c: char, q: char): string {
    if c == '\\' then "\\\\"
    else if c == '\n' then "\\n"
    else if c == '\t' then "\\t"
    else if c == '\r' then "\\r"
    else if c == q then ['\\', q]
    else if HexEscaped(c) then ['\\', 'x', HexChar(c as int / 16), HexChar(c as int % 16)]
    else [c]
  }

  function Escape(s: string, q: char): string {
    if s == [] then "" else EscapeChar(s[0], q) + Escape(s[1..], q)
  }

  /** Text with no character that needs escaping passes through unchanged. */
  lemma {:induction false} EscapePlain(s: string, q: char)
    requires forall i :: 0 <= i < |s| ==> s[i] !in {'\\', '\n', '\t', '\r', q} && !HexEscaped(s[i])
    ensures Escape(s, q) == s
  {
    if s != [] {
      EscapePlain(s[1..], q);
      assert [s[0]] + s[1..] == s;
    }
  }

  function Prepend(c: char, rest: Option<string>): Option<string> {
    if rest.Some? then Some([c] + rest.value) else None
  }

  /** Reads back the text between the quotes of a `repr()`, undoing its
      escapes; `None` for a dangling or unknown escape. */
  function Unescape(t: string): Option<string> {
    if t == [] then Some("")
    else if t[0] != '\\' then Prepend(t[0], Unescape(t[1..]))
    else if |t| < 2 then None
    else if t[1] == 'x' then
      if |t| < 4 || HexValue(t[2]) < 0 || HexValue(t[3]) < 0 then None
      else Prepend((16 * HexValue(t[2]) + HexValue(t[3])) as char, Unescape(t[4..]))
    else if t[1] == 'n' then Prepend('\n', Unescape(t[2..]))
    else if t[1] == 't' then Prepend('\t', Unescape(t[2..]))
    else if t[1] == 'r' then Prepend('\r', Unescape(t[2..]))
    else if t[1] == '\\' || t[1] == '\'' || t[1] == '"' then Prepend(t[1], Unescape(t[2..]))
    else None
  }

  /** Each escaped character reads back as itself, whatever follows it. */
  lemma UnescapeChar(c: char, q: char, rest: string)
    requires q == '\'' || q == '"'
    ensures Unescape(EscapeChar(c, q) + rest) == Prepend(c, Unescape(rest))
  {
    var e := EscapeChar(c, q);
    if HexEscaped(c) && c !in {'\\', '\n', '\t', '\r', q} {
      var t := e + rest;
      assert t[4..] == rest;
      var hi, lo := c as int / 16, c as int % 16;
      assert HexValue(HexChar(hi)) == hi && HexValue(HexChar(lo)) == lo;
    } else if e == [c] {
      assert (e + rest)[1..] == rest;
    } else {
      assert (e + rest)[2..] == rest;
    }
  }

  lemma {:induction false} UnescapeEscape(s: string, q: char)
    requires q == '\'' || q == '"'
    ensures Unescape(Escape(s, q)) == Some(s)
  {
    if s != [] {
      UnescapeEscape(s[1..], q);
      UnescapeChar(s[0], q, Escape(s[1..], q));
      assert [s[0]] + s[1..] == s;
    }
  }

  /** `repr()` reads back: the quotes are double exactly when the text holds a
      single quote and no double quote, and what lies between them unescapes
      to the text. */
  lemma ReprReadsBack(s: string)
    ensures var r := Repr(s);
      && (r[0] == '"' <==> !Lacks(s, '\'') && Lacks(s, '"'))
      && Unescape(r[1..|r| - 1]) == Some(s)
  {
    var q := if !Lacks(s, '\'') && Lacks(s, '"') then '"' else '\'';
    var r := Repr(s);
    assert r[1..|r| - 1] == Escape(s, q);
    UnescapeEscape(s, q);
  }

  /** The text a failed command reports before its return code: its stderr, or both
      streams when it wrote to stdout. */
  function FailureOutput(stdout: string, stderr: string): string {
    if stdout != "" then "out:" + stdout + "\nerr: " + stderr else stderr
  }

  /** `str(CommandFailed(command))` for a command that ran with return code `rc`
      (which must be nonzero) and left `stdout`/`stderr` (empty when the process
      wrote nothing). */
  function FailureMessage(cmdline: string, stdout: string, stderr: string, rc: int): (m: string)
    requires rc != 0
    ensures EndsWith(m, " (rc=" + IntToString(rc) + ")")
  {
    var output := FailureOutput(stdout, stderr);
    var msg := if HasNonSpace(output) then output else "Command failed: " + Repr(cmdline);
    var tail := " (rc=" + IntToString(rc) + ")";
    EndsWithAppend(RStripWs(msg), tail);
    RStripWs(msg) + tail
  }

  /** Any text ending in ` (rc=N)`, as every failure message does, gives `N`
      back from its last digits. */
  lemma CodeAtEnd(m: string, rc: int)
    requires EndsWith(m, " (rc=" + IntToString(rc) + ")")
    ensures var d := IntToString(rc);
      |d| + 6 <= |m| && m[|m| - |d| - 1..|m| - 1] == d && ParseInt(d) == rc
  {
    var d := IntToString(rc);
    var tail := " (rc=" + d + ")";
    var t := m[|m| - |tail|..];
    assert t == tail;
    assert t[5..5 + |d|] == m[|m| - |d| - 1..|m| - 1];
    assert tail[5..5 + |d|] == d;
    ParseIntToString(rc);
  }

  /** A command that printed nothing but blanks is reported by its quoted command
      line, and the stream contents are not shown. */
  lemma FailureMessageBlankOutput(cmdline: string, stdout: string, stderr: string, rc: int)
    requires rc != 0
    requires !HasNonSpace(FailureOutput(stdout, stderr))
    ensures FailureMessage(cmdline, stdout, stderr, rc)
         == "Command failed: " + Repr(cmdline) + " (rc=" + IntToString(rc) + ")"
  {
    var msg := "Command failed: " + Repr(cmdline);
    assert msg[|msg| - 1] == Repr(cmdline)[|Repr(cmdline)| - 1];
    assert RStripWs(msg) == msg;
  }

  /** A command whose stdout is empty and whose stderr has text reports that text,
      right-stripped. */
  lemma FailureMessageStderr(cmdline: string, stderr: string, rc: int)
    requires rc != 0
    requires HasNonSpace(stderr)
    ensures FailureMessage(cmdline, "", stderr, rc) == RStripWs(stderr) + " (rc=" + IntToString(rc) + ")"
  {
  }

  /** Printable ASCII text with no single quote and no backslash is shown in
      single quotes, as it is. */
  lemma ReprPlain(s: string)
    requires forall i :: 0 <= i < |s| ==> ' ' <= s[i] <= '~' && s[i] != '\\' && s[i] != '\''
    ensures Repr(s) == ['\''] + s + ['\'']
  {
    assert Lacks(s, '\'');
    EscapePlain(s, '\'');
  }

  /** The message for `/bin/false` failing with return code 1 and no output: the
      command line in single quotes, then the code. */
  lemma FailureMessageOfFalse()
    ensures Repr("/bin/false") == ['\''] + "/bin/false" + ['\'']
    ensures FailureMessage("/bin/false", "", "", 1) == "Command failed: " + Repr("/bin/false") + " (rc=" + "1" + ")"
  {
    var c := "/bin/false";
    assert Repr(c) == ['\''] + c + ['\''] by {
      ReprPlain(c);
    }
    assert IntToString(1) == "1" by {
      assert NatToString(1) == "1";
    }
    assert FailureMessage(c, "", "", 1) == "Command failed: " + Repr(c) + " (rc=" + IntToString(1) + ")" by {
      assert FailureOutput("", "") == "";
      FailureMessageBlankOutput(c, "", "", 1);
    }
  }

  // ---------------------------------------------------------------- execution

  /** What `execute()` does: the tokenizer refuses the command, it returns the
      command object, or it raises CommandFailed with a message. */
  datatype Outcome = Unbalanced(error: CmdError) | Returned | Raised(message: string)

  /** `execute` raises exactly when the return code is nonzero and errors are not
      ignored. */
  predicate Raises(rc: int, ignoreErrors: bool) {
    rc != 0 && !ignoreErrors
  }

  class CommandLine {
    const cmdline: string
    const ignoreErrors: bool
    var returncode: Option<int>
    var stdout: Option<string>
    var stderr: Option<string>

    constructor (cmdline: string, ignoreErrors: bool)
      ensures this.cmdline == cmdline && this.ignoreErrors == ignoreErrors
      ensures returncode.None? && stdout.None? && stderr.None?
    {
      this.cmdline := cmdline;
      this.ignoreErrors := ignoreErrors;
      returncode := None;
      stdout := None;
      stderr := None;
    }

    /** Tokenizes the command (`argv` is what would be run) and records what the
        process gave back: return code `rc`, and `out`/`err` already decoded (empty
        when the process wrote nothing). */
    method Execute(rc: int, out: string, err: string) returns (argv: Option<seq<string>>, outcome: Outcome)
      modifies this
      ensures ConstructCmdList(cmdline).Failure? ==>
        argv.None? && outcome == Unbalanced(ConstructCmdList(cmdline).error)
        && returncode == old(returncode) && stdout == old(stdout) && stderr == old(stderr)
      ensures ConstructCmdList(cmdline).Success? ==>
        argv == Some(ConstructCmdList(cmdline).value)
        && returncode == Some(rc) && stdout == Some(out) && stderr == Some(err)
        && (outcome.Raised? <==> Raises(rc, ignoreErrors))
        && (outcome.Raised? ==> outcome.message == FailureMessage(cmdline, out, err, rc))
        && (!outcome.Raised? ==> outcome == Returned)
    {
      var list := ConstructCmdList(cmdline);
      if list.Failure? {
        return None, Unbalanced(list.error);
      }
      argv := Some(list.value);
      stdout := Some(out);
      stderr := Some(err);
      returncode := Some(rc);
      if rc != 0 && !ignoreErrors {
        outcome := Raised(FailureMessage(cmdline, out, err, rc));
      } else {
        outcome := Returned;
      }
    }
  }
}
