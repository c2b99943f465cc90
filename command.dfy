/**
  A line of user input as a command (the behaviour of Wish.Commands' Command
  that its tests pin down): the first blank-delimited token is the function
  name, the remaining tokens are its arguments, the last argument is the one
  completed against the file system, and the raw text is kept verbatim for
  display and for execution.

  The runner that executes commands is not part of a command value here: it
  enters `Execute` as two parameters, what it returns for a script and what
  its working directory is once that script has run.
*/
module Commands {
  import PathCompletion

  /** One argument token; only a `Path` argument completes against the file system. */
  datatype Argument = Plain(text: string) | Path(text: string)

  datatype Command = Command(raw: string, functionName: string, arguments: seq<Argument>)

  /** What executing a command reports: the runner's output and its working directory. */
  datatype ExecutionResult = ExecutionResult(text: string, workingDirectory: string)

  /** The blank-free prefix of `s`: everything up to the first space. */
  function Word(s: string): (w: string)
    ensures |w| <= |s| && w == s[..|w|]
    ensures ' ' !in w
    ensures |w| < |s| ==> s[|w|] == ' '
  {
    if s == [] || s[0] == ' ' then [] else [s[0]] + Word(s[1..])
  }

  /** The blank-delimited tokens of `s`, in order; runs of spaces separate, never produce, tokens. */
  function Tokens(s: string): (ts: seq<string>)
    ensures forall t :: t in ts ==> t != [] && ' ' !in t
    ensures ts == [] <==> forall i :: 0 <= i < |s| ==> s[i] == ' '
    decreases |s|
  {
    if s == [] then []
    else if s[0] == ' ' then
      assert forall i :: 1 <= i < |s| ==> s[1..][i - 1] == s[i];
      Tokens(s[1..])
    else
      var w := Word(s);
      [w] + Tokens(s[|w|..])
  }

  /** The tokens written out with one space between neighbours. */
  function Join(ts: seq<string>): (s: string)
  {
    if ts == [] then ""
    else if |ts| == 1 then ts[0]
    else ts[0] + " " + Join(ts[1..])
  }

  /** A token as tokenization produces it: not empty and without spaces. */
  predicate IsToken(t: string)
  {
    t != [] && ' ' !in t
  }

  /** A word followed by nothing or by a space is read back whole. */
  lemma {:induction false} WordOfToken(t: string, rest: string)
    requires ' ' !in t
    requires rest == [] || rest[0] == ' '
    ensures Word(t + rest) == t
  {
    if t != [] {
      assert (t + rest)[1..] == t[1..] + rest;
      WordOfToken(t[1..], rest);
    }
  }

  /** A token at the front of a line is its first token. */
  lemma TokensOfTokenThen(t: string, rest: string)
    requires IsToken(t)
    requires rest == [] || rest[0] == ' '
    ensures Tokens(t + rest) == [t] + Tokens(rest)
  {
    WordOfToken(t, rest);
    assert (t + rest)[0] == t[0];
    assert (t + rest)[|t|..] == rest;
  }

  /** A leading space does not change the tokens. */
  lemma TokensOfSpaceThen(s: string)
    ensures Tokens(" " + s) == Tokens(s)
  {
    assert (" " + s)[1..] == s;
  }

  /** A token and a space in front of a line add that token in front of its tokens. */
  lemma TokensOfTokenSpaceThen(t: string, more: string)
    requires IsToken(t)
    ensures Tokens(t + " " + more) == [t] + Tokens(more)
  {
    assert t + " " + more == t + (" " + more);
    TokensOfTokenThen(t, " " + more);
    TokensOfSpaceThen(more);
  }

  /** Tokenizing words joined by single spaces gives back the words. */
  lemma {:induction false} TokensOfJoin(ts: seq<string>)
    requires forall t :: t in ts ==> IsToken(t)
    ensures Tokens(Join(ts)) == ts
  {
    if |ts| == 1 {
      assert ts[0] in ts;
      TokensOfTokenThen(ts[0], "");
      assert ts[0] + "" == ts[0];
    } else if |ts| > 1 {
      var head, tail := ts[0], ts[1..];
      assert head in ts;
      assert forall u :: u in tail ==> u in ts;
      TokensOfJoin(tail);
      TokensOfTokenSpaceThen(head, Join(tail));
      assert ts == [head] + tail;
    }
  }

  /** The arguments made from the tokens after the function name; the last one is a path. */
  function ArgumentsOf(words: seq<string>): (args: seq<Argument>)
    ensures |args| == |words|
    ensures forall k :: 0 <= k < |words| ==> args[k].text == words[k]
    ensures forall k :: 0 <= k < |words| ==> (args[k].Path? <==> k == |words| - 1)
  {
    seq(|words|, k requires 0 <= k < |words| => if k == |words| - 1 then Path(words[k]) else Plain(words[k]))
  }

  /** Parses a raw line. A blank line gives an empty function name and no arguments. */
  function Parse(raw: string): (c: Command)
    ensures c.raw == raw
    ensures Tokens(raw) == [] ==> c.functionName == "" && c.arguments == []
    ensures Tokens(raw) != [] ==> c.functionName == Tokens(raw)[0] && |c.arguments| == |Tokens(raw)| - 1
    ensures forall k :: 0 <= k < |c.arguments| ==> c.arguments[k].text == Tokens(raw)[k + 1]
  {
    var ts := Tokens(raw);
    if ts == [] then Command(raw, "", []) else Command(raw, ts[0], ArgumentsOf(ts[1..]))
  }

  /** The session-ending command. The name is compared exactly. */
  predicate IsExit(c: Command): (b: bool)
    ensures b <==> c.functionName == "exit"
  {
    c.functionName == "exit"
  }

  /** The display form of a command is the line it was parsed from. */
  function ToString(c: Command): (r: string)
    ensures r == c.raw
    ensures c == Parse(c.raw) ==> Parse(r) == c
  {
    c.raw
  }

  /**
    Completion candidates for the command: none without arguments, otherwise
    those of the last argument against the given listing of the runner's
    working directory.
  */
  function Complete(c: Command, listing: seq<string>): (r: seq<string>)
    ensures c.arguments == [] ==> r == []
    ensures c.arguments != [] && c.arguments[|c.arguments| - 1].Path? ==>
      r == PathCompletion.Complete(listing, c.arguments[|c.arguments| - 1].text)
  {
    if c.arguments == [] then []
    else
      match c.arguments[|c.arguments| - 1]
      case Path(text) => PathCompletion.Complete(listing, text)
      case Plain(_) => []
  }

  /**
    Executes a command: `run` is what the runner returns for a script and
    `workingDirectory` is the runner's working directory once it has run.
  */
  function Execute(c: Command, run: string -> string, workingDirectory: string): (r: ExecutionResult)
    ensures r.text == run(ToString(c))
    ensures r.workingDirectory == workingDirectory
  {
    ExecutionResult(run(c.raw), workingDirectory)
  }

  /** A line of a name and blank-free arguments parses into exactly those parts. */
  lemma ParseWords(name: string, args: seq<string>)
    requires IsToken(name)
    requires forall t :: t in args ==> IsToken(t)
    ensures var c := Parse(Join([name] + args));
      c.functionName == name && |c.arguments| == |args| &&
      (forall k :: 0 <= k < |args| ==> c.arguments[k].text == args[k]) &&
      (args != [] ==> c.arguments[|args| - 1].Path?)
  {
    TokensOfJoin([name] + args);
    assert ([name] + args)[1..] == args;
  }

  /** Parsing "cd somedir": function name "cd", one (path) argument "somedir". */
  lemma ParseCdSomedir()
    ensures Parse("cd somedir").functionName == "cd"
    ensures Parse("cd somedir").arguments == [Path("somedir")]
  {
    assert ["cd", "somedir"][1..] == ["somedir"];
    assert Join(["somedir"]) == "somedir";
    assert Join(["cd", "somedir"]) == "cd" + " " + "somedir";
    assert "cd" + " " + "somedir" == "cd somedir";
    ParseWords("cd", ["somedir"]);
  }

  /** A line names the exit command exactly when its first token is "exit". */
  lemma IsExitParse(raw: string)
    ensures IsExit(Parse(raw)) <==> Tokens(raw) != [] && Tokens(raw)[0] == "exit"
  {
  }

  /** "exit" ends the session; "cd" and "cd somedir" do not. */
  lemma IsExitExamples()
    ensures IsExit(Parse("exit"))
    ensures !IsExit(Parse("cd"))
    ensures !IsExit(Parse("cd somedir"))
  {
    assert Join(["exit"]) == "exit";
    ParseWords("exit", []);
    assert Join(["cd"]) == "cd";
    ParseWords("cd", []);
    ParseCdSomedir();
  }

  /** The display form of a parsed line is the line itself, spaces included. */
  lemma ToStringOfParse(raw: string)
    ensures ToString(Parse(raw)) == raw
  {
  }

  /** A line with at most one token offers no completion, whatever the directory holds. */
  lemma CompleteWithoutArguments(raw: string, listing: seq<string>)
    requires |Tokens(raw)| <= 1
    ensures Complete(Parse(raw), listing) == []
  {
  }

  /** "func" offers no completion. */
  lemma CompleteFunc(listing: seq<string>)
    ensures Complete(Parse("func"), listing) == []
  {
    assert Join(["func"]) == "func";
    TokensOfJoin(["func"]);
    CompleteWithoutArguments("func", listing);
  }

  /** The last token of a parsed line is completed as a path. */
  lemma CompleteLastArgument(raw: string, listing: seq<string>)
    requires |Tokens(raw)| >= 2
    ensures Complete(Parse(raw), listing) == PathCompletion.Complete(listing, Tokens(raw)[|Tokens(raw)| - 1])
  {
    var ts := Tokens(raw);
    var args := Parse(raw).arguments;
    assert args == ArgumentsOf(ts[1..]);
    assert args[|args| - 1] == Path(ts[|ts| - 1]);
  }

  /** The reported working directory is the runner's, whether or not the command changes directory. */
  lemma ExecuteWorkingDirectoryUniform(c: Command, d: Command, run: string -> string, workingDirectory: string)
    ensures Execute(c, run, workingDirectory).workingDirectory == Execute(d, run, workingDirectory).workingDirectory
  {
  }

  /** Executing "cd somedir" and "command" against the test runner. */
  lemma ExecuteExamples(run: string -> string)
    requires run("cd somedir") == "testing" && run("command") == "testing"
    ensures Execute(Parse("cd somedir"), run, "T:\\somewhere\\somedir") == ExecutionResult("testing", "T:\\somewhere\\somedir")
    ensures Execute(Parse("command"), run, "T:\\somewhere\\somedir") == ExecutionResult("testing", "T:\\somewhere\\somedir")
  {
  }
}
