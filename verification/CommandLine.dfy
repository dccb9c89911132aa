/**
 Building a Windows command line (process_runner.cpp), proved to be the inverse of the parsing rules that the
 Microsoft C runtime documents for argv.
 */
module CommandLine {

  function Backslashes(n: nat): (s: string)
    ensures |s| == n
  {
    seq(n, i => '\\')
  }

  // ----- the printer

  predicate ForcesQuotes(c: char) {
    c == ' ' || c == '\t' || c == '\n' || c == '\U{0B}' || c == '"'
  }

  predicate NeedsQuotes(arg: string) {
    exists i | 0 <= i < |arg| :: ForcesQuotes(arg[i])
  }

  /** What is still to be printed inside quotes when `pending` backslashes have been read but not printed. */
  function QuotedTail(arg: string, pending: nat): string {
    if arg == "" then Backslashes(2 * pending) + "\""
    else if arg[0] == '\\' then QuotedTail(arg[1..], pending + 1)
    else if arg[0] == '"' then Backslashes(2 * pending + 1) + "\"" + QuotedTail(arg[1..], 0)
    else Backslashes(pending) + [arg[0]] + QuotedTail(arg[1..], 0)
  }

  function QuoteArg(arg: string): string {
    if arg == "" then "\"\""
    else if !NeedsQuotes(arg) then arg
    else "\"" + QuotedTail(arg, 0)
  }

  /** quote_windows_arg: backslashes are counted, and doubled only in front of a quote. */
  method QuoteWindowsArg(arg: string) returns (result: string)
    ensures result == QuoteArg(arg)
  {
    if arg == "" {
      return "\"\"";
    }
    var needsQuotes := false;
    var j := 0;
    while j < |arg| && !needsQuotes
      invariant 0 <= j <= |arg|
      invariant needsQuotes ==> NeedsQuotes(arg)
      invariant !needsQuotes ==> forall i | 0 <= i < j :: !ForcesQuotes(arg[i])
      decreases |arg| - j, !needsQuotes
    {
      if ForcesQuotes(arg[j]) {
        needsQuotes := true;
      } else {
        j := j + 1;
      }
    }
    if !needsQuotes {
      return arg;
    }
    result := "\"";
    var backslashes := 0;
    for k := 0 to |arg|
      invariant result + QuotedTail(arg[k..], backslashes) == QuoteArg(arg)
    {
      var c := arg[k];
      assert arg[k..][0] == c && arg[k..][1..] == arg[k + 1..];
      if c == '\\' {
        backslashes := backslashes + 1;
      } else if c == '"' {
        result := result + Backslashes(2 * backslashes + 1) + [c];
        backslashes := 0;
      } else {
        result := result + Backslashes(backslashes) + [c];
        backslashes := 0;
      }
    }
    result := result + Backslashes(2 * backslashes);
    result := result + "\"";
  }

  /** Every argument after the program name, each behind one space. */
  function ArgumentsText(args: seq<string>): string {
    if args == [] then "" else " " + QuoteArg(args[0]) + ArgumentsText(args[1..])
  }

  function CommandText(program: string, args: seq<string>): string {
    QuoteArg(program) + ArgumentsText(args)
  }

  lemma {:induction false} ArgumentsTextAppend(args: seq<string>, last: string)
    ensures ArgumentsText(args + [last]) == ArgumentsText(args) + " " + QuoteArg(last)
  {
    hide QuoteArg;
    if args == [] {
      assert ([last])[1..] == [];
    } else {
      ArgumentsTextAppend(args[1..], last);
      assert (args + [last])[1..] == args[1..] + [last];
    }
  }

  /** make_windows_command_line */
  method MakeWindowsCommandLine(program: string, arguments: seq<string>) returns (commandLine: string)
    ensures commandLine == CommandText(program, arguments)
  {
    hide QuoteArg;
    var args := [program] + arguments;
    commandLine := "";
    for index := 0 to |args|
      invariant index == 0 ==> commandLine == ""
      invariant index > 0 ==> commandLine == CommandText(program, arguments[..index - 1])
    {
      if index != 0 {
        commandLine := commandLine + " ";
        assert arguments[..index] == arguments[..index - 1] + [args[index]];
        ArgumentsTextAppend(arguments[..index - 1], args[index]);
      }
      var quoted := QuoteWindowsArg(args[index]);
      commandLine := commandLine + quoted;
    }
    assert arguments[..|arguments|] == arguments;
  }

  // ----- the parsing rules

  predicate IsDelimiter(c: char) {
    c == ' ' || c == '\t'
  }

  function LeadingBackslashes(s: string): (n: nat)
    ensures n <= |s|
    ensures s[..n] == Backslashes(n)
    ensures n < |s| ==> s[n] != '\\'
  {
    if s == "" || s[0] != '\\' then 0
    else
      var n := LeadingBackslashes(s[1..]);
      assert s[..n + 1] == ['\\'] + s[1..][..n];
      n + 1
  }

  /**
   What a doubled quote mark inside quotes means: two switches, or one quote mark after which quoting goes on (as
   current runtimes read it) or ends (as older ones do).
   */
  datatype QuoteRule = PairSwitchesTwice | PairStaysQuoted | PairEndsQuoting

  /**
   One argument and what follows it. 2n backslashes and a quote mark give n backslashes and switch quoting on
   or off; 2n + 1 give n backslashes and a quote mark; other backslashes stand for themselves.
   */
  function TakeArg(s: string, inQuotes: bool, rule: QuoteRule): (r: (string, string))
    ensures |r.1| <= |s|
    ensures s != "" && (inQuotes || !IsDelimiter(s[0])) ==> |r.1| < |s|
    decreases |s|
  {
    var n := LeadingBackslashes(s);
    if n == |s| then (s, "")
    else if s[n] == '"' then
      var rest := s[n + 1..];
      if n % 2 == 1 then
        var r := TakeArg(rest, inQuotes, rule);
        (Backslashes(n / 2) + "\"" + r.0, r.1)
      else if inQuotes && !rule.PairSwitchesTwice? && rest != "" && rest[0] == '"' then
        var r := TakeArg(rest[1..], rule.PairStaysQuoted?, rule);
        (Backslashes(n / 2) + "\"" + r.0, r.1)
      else
        var r := TakeArg(rest, !inQuotes, rule);
        (Backslashes(n / 2) + r.0, r.1)
    else if !inQuotes && IsDelimiter(s[n]) then (s[..n], s[n..])
    else
      var r := TakeArg(s[n + 1..], inQuotes, rule);
      (s[..n + 1] + r.0, r.1)
  }

  function SkipDelimiters(s: string): (r: string)
    ensures |r| <= |s|
    ensures r != "" ==> !IsDelimiter(r[0])
  {
    if s != "" && IsDelimiter(s[0]) then SkipDelimiters(s[1..]) else s
  }

  function ParseArguments(s: string, rule: QuoteRule): seq<string>
    decreases |s|
  {
    var t := SkipDelimiters(s);
    if t == "" then []
    else
      var r := TakeArg(t, false, rule);
      [r.0] + ParseArguments(r.1, rule)
  }

  /** The program name has its own rule: quote marks only switch quoting, backslashes are ordinary. */
  function TakeProgram(s: string, inQuotes: bool): (r: (string, string))
    ensures '"' !in r.0
  {
    if s == "" then ("", "")
    else if s[0] == '"' then TakeProgram(s[1..], !inQuotes)
    else if !inQuotes && IsDelimiter(s[0]) then ("", s)
    else
      var r := TakeProgram(s[1..], inQuotes);
      ([s[0]] + r.0, r.1)
  }

  function ParseCommandLine(s: string, rule: QuoteRule): seq<string> {
    var r := TakeProgram(s, false);
    [r.0] + ParseArguments(r.1, rule)
  }

  // ----- arguments

  predicate EndsArgument(rest: string) {
    rest != "" ==> rest[0] == ' '
  }

  lemma {:induction false} LeadingBackslashesOf(k: nat, rest: string)
    requires rest != "" ==> rest[0] != '\\'
    ensures LeadingBackslashes(Backslashes(k) + rest) == k
  {
    if k == 0 {
      assert Backslashes(0) + rest == rest;
    } else {
      LeadingBackslashesOf(k - 1, rest);
      assert (Backslashes(k) + rest)[1..] == Backslashes(k - 1) + rest;
    }
  }

  /** Inside quotes, what is still to be printed is read as the pending backslashes and the rest of the argument. */
  lemma {:induction false} QuotedTailIsRead(arg: string, pending: nat, rest: string, rule: QuoteRule)
    requires EndsArgument(rest)
    ensures TakeArg(QuotedTail(arg, pending) + rest, true, rule) == (Backslashes(pending) + arg, rest)
    decreases |arg|
  {
    hide TakeArg;
    var text := QuotedTail(arg, pending) + rest;
    if arg == "" {
      ClosingQuoteIsRead(pending, rest, rule);
      assert text == Backslashes(2 * pending) + ("\"" + rest);
      assert Backslashes(pending) + arg == Backslashes(pending);
    } else if arg[0] == '\\' {
      QuotedTailIsRead(arg[1..], pending + 1, rest, rule);
      assert Backslashes(pending + 1) + arg[1..] == Backslashes(pending) + arg;
    } else if arg[0] == '"' {
      var tail := QuotedTail(arg[1..], 0) + rest;
      QuotedTailIsRead(arg[1..], 0, rest, rule);
      assert text == Backslashes(2 * pending + 1) + ("\"" + tail);
      EscapedQuoteIsRead(pending, tail, rule);
      assert Backslashes(pending) + "\"" + (Backslashes(0) + arg[1..]) == Backslashes(pending) + arg;
    } else {
      var tail := QuotedTail(arg[1..], 0) + rest;
      QuotedTailIsRead(arg[1..], 0, rest, rule);
      assert text == Backslashes(pending) + ([arg[0]] + tail);
      OrdinaryCharIsRead(pending, arg[0], tail, true, rule);
      assert Backslashes(pending) + [arg[0]] + (Backslashes(0) + arg[1..]) == Backslashes(pending) + arg;
    }
  }

  lemma ClosingQuoteIsRead(pending: nat, rest: string, rule: QuoteRule)
    requires EndsArgument(rest)
    ensures TakeArg(Backslashes(2 * pending) + ("\"" + rest), true, rule) == (Backslashes(pending), rest)
  {
    var s := Backslashes(2 * pending) + ("\"" + rest);
    LeadingBackslashesOf(2 * pending, "\"" + rest);
    assert s[2 * pending] == '"' && s[2 * pending + 1..] == rest;
    NothingToRead(rest, rule);
    assert Backslashes(pending) + "" == Backslashes(pending);
  }

  lemma NothingToRead(rest: string, rule: QuoteRule)
    requires EndsArgument(rest)
    ensures TakeArg(rest, false, rule) == ("", rest)
  {
    if rest != "" {
      assert LeadingBackslashes(rest) == 0;
      assert rest[..0] == "" && rest[0..] == rest;
    }
  }

  lemma EscapedQuoteIsRead(pending: nat, tail: string, rule: QuoteRule)
    ensures var r := TakeArg(tail, true, rule);
            TakeArg(Backslashes(2 * pending + 1) + ("\"" + tail), true, rule) ==
            (Backslashes(pending) + "\"" + r.0, r.1)
  {
    OddBackslashesAreRead(2 * pending + 1, tail, rule);
    assert (2 * pending + 1) / 2 == pending;
  }

  lemma OddBackslashesAreRead(n: nat, tail: string, rule: QuoteRule)
    requires n % 2 == 1
    ensures var r := TakeArg(tail, true, rule);
            TakeArg(Backslashes(n) + ("\"" + tail), true, rule) == (Backslashes(n / 2) + "\"" + r.0, r.1)
  {
    hide LeadingBackslashes;
    var s := Backslashes(n) + ("\"" + tail);
    LeadingBackslashesOf(n, "\"" + tail);
    assert s[n] == '"' && s[n + 1..] == tail;
  }

  lemma OrdinaryCharIsRead(pending: nat, c: char, tail: string, inQuotes: bool, rule: QuoteRule)
    requires c != '\\' && c != '"' && (inQuotes || !IsDelimiter(c))
    ensures var r := TakeArg(tail, inQuotes, rule);
            TakeArg(Backslashes(pending) + ([c] + tail), inQuotes, rule) == (Backslashes(pending) + [c] + r.0, r.1)
  {
    var s := Backslashes(pending) + ([c] + tail);
    LeadingBackslashesOf(pending, [c] + tail);
    assert s[pending] == c && s[pending + 1..] == tail;
    assert s[..pending + 1] == Backslashes(pending) + [c];
  }

  lemma FinalBackslashesAreRead(n: nat, rest: string, rule: QuoteRule)
    requires EndsArgument(rest)
    ensures TakeArg(Backslashes(n) + rest, false, rule) == (Backslashes(n), rest)
  {
    hide LeadingBackslashes;
    var s := Backslashes(n) + rest;
    LeadingBackslashesOf(n, rest);
    assert rest == "" ==> s == Backslashes(n);
    assert s[..n] == Backslashes(n) && s[n..] == rest;
  }

  lemma PlainTail(arg: string, n: nat)
    requires n < |arg| && !NeedsQuotes(arg)
    ensures !NeedsQuotes(arg[n + 1..]) && !ForcesQuotes(arg[n])
  {
    var tail := arg[n + 1..];
    assert forall i | 0 <= i < |tail| :: tail[i] == arg[n + 1 + i];
  }

  /** An argument printed without quotes is read as it stands, backslashes included. */
  lemma {:induction false} PlainIsRead(arg: string, rest: string, rule: QuoteRule)
    requires !NeedsQuotes(arg) && EndsArgument(rest)
    ensures TakeArg(arg + rest, false, rule) == (arg, rest)
    decreases |arg|
  {
    hide TakeArg, NeedsQuotes;
    var n := LeadingBackslashes(arg);
    if n == |arg| {
      assert arg[..n] == arg;
      FinalBackslashesAreRead(n, rest, rule);
    } else {
      var tail := arg[n + 1..];
      PlainTail(arg, n);
      PlainIsRead(tail, rest, rule);
      assert arg + rest == Backslashes(n) + ([arg[n]] + (tail + rest));
      OrdinaryCharIsRead(n, arg[n], tail + rest, false, rule);
      assert Backslashes(n) + [arg[n]] + tail == arg;
    }
  }

  lemma OpeningQuoteIsRead(tail: string, rule: QuoteRule)
    ensures TakeArg("\"" + tail, false, rule) == TakeArg(tail, true, rule)
  {
    var s := "\"" + tail;
    assert s[0] == '"' && LeadingBackslashes(s) == 0 && s[1..] == tail;
    var r := TakeArg(tail, true, rule);
    assert Backslashes(0) + r.0 == r.0;
  }

  lemma EmptyIsRead(rest: string, rule: QuoteRule)
    requires EndsArgument(rest)
    ensures TakeArg("\"\"" + rest, false, rule) == ("", rest)
  {
    hide TakeArg;
    var tail := "\"" + rest;
    assert "\"\"" + rest == "\"" + tail;
    OpeningQuoteIsRead(tail, rule);
    ClosingQuoteIsRead(0, rest, rule);
    assert Backslashes(2 * 0) + tail == tail && Backslashes(0) == "";
  }

  /** A printed argument is read back, and reading stops where its text ends. */
  lemma ArgumentIsRead(arg: string, rest: string, rule: QuoteRule)
    requires EndsArgument(rest)
    ensures TakeArg(QuoteArg(arg) + rest, false, rule) == (arg, rest)
  {
    hide TakeArg, QuotedTail, NeedsQuotes;
    if arg == "" {
      EmptyIsRead(rest, rule);
    } else if !NeedsQuotes(arg) {
      PlainIsRead(arg, rest, rule);
    } else {
      var tail := QuotedTail(arg, 0) + rest;
      assert QuoteArg(arg) + rest == "\"" + tail;
      OpeningQuoteIsRead(tail, rule);
      QuotedTailIsRead(arg, 0, rest, rule);
      assert Backslashes(0) + arg == arg;
    }
  }

  lemma ArgumentStarts(arg: string)
    ensures QuoteArg(arg) != "" && !IsDelimiter(QuoteArg(arg)[0])
  {
    hide QuotedTail;
    if arg != "" && !NeedsQuotes(arg) {
      assert !ForcesQuotes(arg[0]);
    }
  }

  /** One more printed argument in front is one more parsed argument in front. */
  lemma FirstArgumentIsParsed(arg: string, rest: string, rule: QuoteRule)
    requires EndsArgument(rest)
    ensures ParseArguments(" " + QuoteArg(arg) + rest, rule) == [arg] + ParseArguments(rest, rule)
  {
    hide TakeArg, QuoteArg;
    var printed := QuoteArg(arg) + rest;
    var text := " " + QuoteArg(arg) + rest;
    ArgumentIsRead(arg, rest, rule);
    ArgumentStarts(arg);
    assert text[1..] == printed;
    assert SkipDelimiters(text) == SkipDelimiters(printed) == printed;
  }

  lemma ArgumentsTextEndsArgument(args: seq<string>)
    ensures EndsArgument(ArgumentsText(args))
  {
    hide QuoteArg;
  }

  /** For every list of arguments, parsing the printed text gives back exactly those arguments. */
  lemma {:induction false} ArgumentsRoundTrip(args: seq<string>, rule: QuoteRule)
    ensures ParseArguments(ArgumentsText(args), rule) == args
    decreases |args|
  {
    hide QuoteArg, EndsArgument, TakeArg;
    if args == [] {
      NothingIsParsed(rule);
    } else {
      hide ParseArguments;
      ArgumentsTextEndsArgument(args[1..]);
      FirstArgumentIsParsed(args[0], ArgumentsText(args[1..]), rule);
      ArgumentsRoundTrip(args[1..], rule);
      assert args == [args[0]] + args[1..];
    }
  }

  lemma NothingIsParsed(rule: QuoteRule)
    ensures ParseArguments("", rule) == []
  {
  }

  // ----- the program name

  /** The number of backslashes at the end of `pending` backslashes followed by s. */
  function TrailingBackslashes(s: string, pending: nat): nat {
    if s == "" then pending
    else TrailingBackslashes(s[1..], if s[0] == '\\' then pending + 1 else 0)
  }

  lemma {:induction false} TrailingBackslashesAreAtTheEnd(s: string, pending: nat)
    ensures TrailingBackslashes(s, pending) > 0 <==> if s == "" then pending > 0 else s[|s| - 1] == '\\'
    decreases |s|
  {
    if s != "" {
      TrailingBackslashesAreAtTheEnd(s[1..], if s[0] == '\\' then pending + 1 else 0);
    }
  }

  lemma {:induction false} QuotedTailWithoutQuotes(s: string, pending: nat)
    requires '"' !in s
    ensures QuotedTail(s, pending) == Backslashes(pending) + s + (Backslashes(TrailingBackslashes(s, pending)) + "\"")
    decreases |s|
  {
    if s == "" {
      assert Backslashes(2 * pending) == Backslashes(pending) + s + Backslashes(pending);
    } else if s[0] == '\\' {
      QuotedTailWithoutQuotes(s[1..], pending + 1);
      assert Backslashes(pending + 1) + s[1..] == Backslashes(pending) + s;
    } else {
      QuotedTailWithoutQuotes(s[1..], 0);
      assert Backslashes(0) == "";
      Regroup(Backslashes(pending), s, Backslashes(TrailingBackslashes(s[1..], 0)) + "\"");
    }
  }

  lemma Regroup(before: string, s: string, after: string)
    requires s != ""
    ensures before + [s[0]] + ("" + s[1..] + after) == before + s + after
  {
  }

  lemma {:induction false} ProgramIsRead(s: string, rest: string, inQuotes: bool)
    requires '"' !in s
    requires !inQuotes ==> (forall i | 0 <= i < |s| :: !IsDelimiter(s[i])) && EndsArgument(rest)
    ensures var r := TakeProgram(rest, inQuotes);
            TakeProgram(s + rest, inQuotes) == (s + r.0, r.1)
    decreases |s|
  {
    if s == "" {
      var r := TakeProgram(rest, inQuotes);
      assert s + rest == rest && s + r.0 == r.0;
    } else {
      ProgramIsRead(s[1..], rest, inQuotes);
      var r := TakeProgram(rest, inQuotes);
      assert (s + rest)[1..] == s[1..] + rest && (s + rest)[0] == s[0];
      assert s[0] != '"';
      assert [s[0]] + (s[1..] + r.0) == s + r.0;
    }
  }

  /** A name without quote marks, and without a final backslash if it has to be quoted. */
  predicate IsPlainProgram(program: string) {
    '"' !in program && (NeedsQuotes(program) ==> program[|program| - 1] != '\\')
  }

  lemma QuotedProgramIsRead(program: string, rest: string)
    requires '"' !in program && NeedsQuotes(program) && EndsArgument(rest)
    ensures TakeProgram(QuoteArg(program) + rest, false) ==
            (program + Backslashes(TrailingBackslashes(program, 0)), rest)
  {
    hide TakeProgram, QuotedTail, TrailingBackslashes;
    var name := program + Backslashes(TrailingBackslashes(program, 0));
    QuotedTailWithoutQuotes(program, 0);
    assert Backslashes(0) + program == program;
    assert QuoteArg(program) + rest == "\"" + (name + ("\"" + rest));
    QuotedNameIsRead(name, rest);
  }

  lemma QuotedNameIsRead(name: string, rest: string)
    requires '"' !in name && EndsArgument(rest)
    ensures TakeProgram("\"" + (name + ("\"" + rest)), false) == (name, rest)
  {
    var closing := "\"" + rest;
    assert ("\"" + (name + closing))[1..] == name + closing;
    ProgramIsRead(name, closing, true);
    ProgramEnds(rest);
    assert closing[1..] == rest && name + "" == name;
  }

  lemma ProgramEnds(rest: string)
    requires EndsArgument(rest)
    ensures TakeProgram(rest, false) == ("", rest)
  {
  }

  lemma ProgramRoundTripIff(program: string, rest: string)
    requires EndsArgument(rest)
    ensures IsPlainProgram(program) ==> TakeProgram(QuoteArg(program) + rest, false) == (program, rest)
    ensures TakeProgram(QuoteArg(program) + rest, false).0 == program ==> IsPlainProgram(program)
  {
    if '"' in program {
    } else if NeedsQuotes(program) {
      QuotedProgramIsRead(program, rest);
      TrailingBackslashesAreAtTheEnd(program, 0);
      var extra := Backslashes(TrailingBackslashes(program, 0));
      assert |program + extra| == |program| + |extra|;
      assert extra == "" ==> program + extra == program;
    } else {
      ProgramEnds(rest);
      if program == "" {
        assert QuoteArg(program) + rest == "\"" + ("\"" + rest);
        assert ("\"" + ("\"" + rest))[1..] == "\"" + rest && ("\"" + rest)[1..] == rest;
      } else {
        forall i | 0 <= i < |program|
          ensures !IsDelimiter(program[i])
        {
          assert !ForcesQuotes(program[i]);
        }
        ProgramIsRead(program, rest, false);
        assert program + "" == program;
      }
    }
  }

  /**
   The whole command line is parsed back into the program and its arguments, whatever the arguments are, exactly
   when the program name is plain; under each rule for doubled quote marks.
   */
  lemma CommandLineRoundTripIff(program: string, args: seq<string>, rule: QuoteRule)
    ensures ParseCommandLine(CommandText(program, args), rule) == [program] + args <==> IsPlainProgram(program)
  {
    hide TakeProgram, QuoteArg, ParseArguments;
    var rest := ArgumentsText(args);
    ProgramRoundTripIff(program, rest);
    ArgumentsRoundTrip(args, rule);
    var r := TakeProgram(CommandText(program, args), false);
    assert ([r.0] + ParseArguments(r.1, rule))[0] == r.0;
    assert ([program] + args)[0] == program;
  }


  /** Quotes are put around an argument exactly when it is empty or has one of five characters. */
  lemma QuotedIff(arg: string)
    ensures QuoteArg(arg) == arg <==>
            arg != "" && forall c | c in arg :: c !in {' ', '\t', '\n', '\U{0B}', '"'}
    ensures QuoteArg(arg) != arg ==> QuoteArg(arg)[0] == '"' && |QuoteArg(arg)| >= |arg| + 2
  {
    hide QuotedTail;
    QuotedTailIsLonger(arg, 0);
    if arg != "" && !NeedsQuotes(arg) {
      forall c | c in arg
        ensures c !in {' ', '\t', '\n', '\U{0B}', '"'}
      {
        var i :| 0 <= i < |arg| && arg[i] == c;
        assert !ForcesQuotes(arg[i]);
      }
    } else if arg != "" {
      var i :| 0 <= i < |arg| && ForcesQuotes(arg[i]);
      assert arg[i] in arg;
    }
  }

  lemma {:induction false} QuotedTailIsLonger(arg: string, pending: nat)
    ensures |QuotedTail(arg, pending)| >= |arg| + pending + 1
    decreases |arg|
  {
    if arg != "" {
      QuotedTailIsLonger(arg[1..], pending + 1);
      QuotedTailIsLonger(arg[1..], 0);
    }
  }


  function QuotedLength(args: seq<string>): nat {
    if args == [] then 0 else |QuoteArg(args[0])| + QuotedLength(args[1..])
  }

  /** The text is no longer than its arguments and one blank in front of each. */
  lemma {:induction false} OneBlankEach(args: seq<string>)
    ensures |ArgumentsText(args)| == QuotedLength(args) + |args|
    decreases |args|
  {
    hide QuoteArg;
    if args != [] {
      OneBlankEach(args[1..]);
    }
  }
}
