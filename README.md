# Wish shell front end: a Dafny model

This project models the three pieces of logic in the Wish interactive shell's
front end, and proves properties about them:

- **Command history** (`command_history.dfy`, module `History`, and
  `history_laws.dfy`, module `HistoryLaws`). This is a newest-first list of
  entries with a cursor that wraps around in both directions.
  - `GetNext` first inserts a blank "currently editing" placeholder when the
    cursor is at the front.
  - `Reset` drops every blank entry and puts the cursor back at the front.
  - The class `History.CommandHistory` has the two fields the C# class mutates
    (`commands` as a `seq`, `index` as an `int`), a `Valid()` invariant, and
    one method per C# member.
  - Each method is proved to make exactly the transition that a pure function
    on `History.State` describes (`AfterAdd`, `StepNext`, `StepPrevious`,
    `AfterReset`). The lemmas about several calls are stated with those
    functions.
- **Command parsing** (`command.dfy`, module `Commands`). A raw line is split
  into blank-delimited tokens:
  - the first token is the function name;
  - the remaining tokens become the arguments, and the last one is a path
    argument that completes against the file system.
  - The module also covers `IsExit`, `ToString`, `Complete` and `Execute`.
    `Execute` takes the runner as two parameters: what the runner returns for a
    script, and the runner's working directory after the script has run.
- **Path-argument completion** (`path_completion.dfy`, module
  `PathCompletion`). Completion is a filter and a map over the listing of the
  working directory.
  - The filter keeps names that start with the typed text, ignoring ASCII case.
  - Each kept name gets the `.\` prefix.
  - A kept name that contains a space is then wrapped in single quotes.

`wrappers.dfy` holds the `Option` type. It stands for a C# reference that may
be null.

The C# sources of `Command` and `PowershellArgument` are not part of this
model. Their behaviour is taken from their tests
(`Wish.Commands.Tests/CommandTests.cs`,
`Wish.Commands.Tests/PowershellArgumentTests.cs`). Where the tests leave a
choice open, the model takes the following choices:
- tokens are maximal runs of characters other than `' '`;
- `"exit"` is compared exactly;
- a blank line parses to an empty function name with no arguments.

One behaviour of `CommandHistory.GetNext` is worth knowing. It inserts a
placeholder every time the cursor comes back to the front, not only the first
time. After a full forward cycle, the next call returns the earlier
placeholder again, and blanks pile up until `Reset`. The model follows the
code, and `HistoryLaws.SecondPassInsertsAgain` states this behaviour.
`HistoryLaws.ResetAfterNavigate` shows that these placeholders are harmless:
whatever navigation happened, a reset restores the named history exactly.

## Model

| member | source | states |
|---|---|---|
| `History.KeepNamed` | Wish.Core/CommandHistory.cs:51 | the filter used by Reset: no entry of the result has an empty name, and it is no longer than its input |
| `History.KeepNamedMembers` | Wish.Core/CommandHistory.cs:51 | an entry is in the filtered list if and only if it was in the list and has a non-empty name |
| `History.KeepNamedAppend` | Wish.Core/CommandHistory.cs:51 | filtering distributes over concatenation, so kept entries keep their original relative order |
| `History.KeepNamedOfNamed` | Wish.Core/CommandHistory.cs:51 | a list with no blank entries passes the filter unchanged |
| `History.KeepNamedIdempotent` | Wish.Core/CommandHistory.cs:51 | filtering twice is the same as filtering once |
| `History.KeepNamedCounts` | Wish.Core/CommandHistory.cs:51 | every named entry keeps every one of its occurrences, and no blank entry survives |
| `History.ResetDropsBlanks` | Wish.Core/CommandHistory.cs:51 | a list made only of blank entries filters to the empty list |
| `History.ResetDropsPlaceholders` | Wish.Core/CommandHistory.cs:51 | the placeholder that GetNext inserts in front is exactly what the filter removes |
| `History.AfterAdd` | Wish.Core/CommandHistory.cs:18-21 | Add puts the entry at position 0, the old list follows unchanged, the cursor is untouched, and the invariant is kept |
| `History.StepNext` | Wish.Core/CommandHistory.cs:23-36 | null (None) exactly on an empty history, with nothing changed; at cursor 0 one blank entry is inserted in front and the entry that was at the front (the newest real one on a first pass, the earlier placeholder after a full forward cycle) is returned; elsewhere the list is unchanged, the cursor advances, wrapping to 0 after the last entry; the result is the entry at the new cursor, which is in range |
| `History.StepPrevious` | Wish.Core/CommandHistory.cs:38-47 | null (None) exactly on an empty history; the list never changes; the cursor moves back one and wraps from 0 to the oldest entry, which is then returned; the result is the entry at the new cursor, which is in range |
| `History.AfterReset` | Wish.Core/CommandHistory.cs:49-53 | Reset leaves exactly the filtered list, holding no blank entry, with the cursor at 0 |
| `History.ResetIdempotent` | Wish.Core/CommandHistory.cs:49-53 | resetting twice is the same as resetting once |
| `History.CommandHistory.constructor` | Wish.Core/CommandHistory.cs:10-11 | a new history is empty with the cursor at 0, and it satisfies the invariant |
| `History.CommandHistory.Commands` | Wish.Core/CommandHistory.cs:13-16 | the recorded list; the cursor addresses one of its entries whenever it is non-empty, and is 0 otherwise |
| `History.CommandHistory.Add` | Wish.Core/CommandHistory.cs:18-21 | prepends the entry, leaves the cursor alone, keeps the invariant, and matches AfterAdd |
| `History.CommandHistory.GetNext` | Wish.Core/CommandHistory.cs:23-36 | the insert-then-advance-then-wrap steps on the two fields produce exactly StepNext's state and result, and the returned entry is the one at the cursor |
| `History.CommandHistory.GetPrevious` | Wish.Core/CommandHistory.cs:38-47 | the decrement-then-wrap steps produce exactly StepPrevious's state and result, and the list is not modified |
| `History.CommandHistory.Reset` | Wish.Core/CommandHistory.cs:49-53 | the list becomes the filtered old list and the cursor 0, as in AfterReset |
| `History.Session` | Wish.Core/CommandHistory.cs:18-53 | a client of the class: after adding a, b, c to a new history, GetPrevious gives a (the oldest); after Reset GetNext gives c; a final Reset removes the placeholder and leaves [c, b, a] |
| `HistoryLaws.Navigate` | Wish.Core/CommandHistory.cs:23-47 | any sequence of GetNext/GetPrevious calls keeps the invariant |
| `HistoryLaws.NavigateAddsPlaceholders` | Wish.Core/CommandHistory.cs:26-29 | navigation only ever puts blank placeholders in front of the list; the old list is intact behind them |
| `HistoryLaws.ResetAfterNavigate` | Wish.Core/CommandHistory.cs:49-53 | after any navigation, Reset gives the same history as resetting before it: no named entry is lost or added |
| `HistoryLaws.PreviousReachesOldest` | Wish.Core/CommandHistory.cs:41-46 | from cursor i, i + 1 steps back reach the oldest entry |
| `HistoryLaws.PreviousCycles` | Wish.Core/CommandHistory.cs:41-46 | stepping back once per entry returns to the same state: repeated presses cycle without inserting anything |
| `HistoryLaws.PreviousPeriodic` | Wish.Core/CommandHistory.cs:41-46 | stepping back n more times after a full cycle is the same as stepping back n times |
| `HistoryLaws.NextTimesFromFront` | Wish.Core/CommandHistory.cs:26-35 | from the front, n forward steps (1 ≤ n ≤ count) give the list with one placeholder in front and the cursor at n |
| `HistoryLaws.NextTimesReturnsToPlaceholder` | Wish.Core/CommandHistory.cs:30-35 | one step more than there are entries wraps the cursor to 0, and that step returns the placeholder |
| `HistoryLaws.SecondPassInsertsAgain` | Wish.Core/CommandHistory.cs:26-29 | with the cursor back on a placeholder at 0, GetNext inserts a second placeholder and returns the first |
| `HistoryLaws.AddScenario` | Wish.Core/CommandHistory.cs:18-21 | adding A, B, C to an empty history gives [C, B, A] |
| `HistoryLaws.PreviousScenario` | Wish.Core/CommandHistory.cs:38-47 | on [C, B, A] at the front, GetPrevious returns A (the oldest), then B, then C |
| `HistoryLaws.NextScenario` | Wish.Core/CommandHistory.cs:23-36 | on [C, B, A] at the front, GetNext inserts a placeholder and returns C, then B, then A, then the placeholder |
| `Commands.Word` | Wish.Commands.Tests/CommandTests.cs:23 | the first word of a line is its longest prefix without a space, and it stops at a space or at the end |
| `Commands.Tokens` | Wish.Commands.Tests/CommandTests.cs:17-29 | every token is non-empty and blank-free; there are no tokens if and only if the line is blank |
| `Commands.TokensOfJoin` | Wish.Commands.Tests/CommandTests.cs:17-29 | tokenizing words joined by single spaces gives back exactly those words (round trip) |
| `Commands.ArgumentsOf` | Wish.Commands.Tests/CommandTests.cs:29 | one argument per remaining token, with the same text in the same order; only the last is a path argument |
| `Commands.Parse` | Wish.Commands.Tests/CommandTests.cs:15-30 | the raw text is kept; the function name is the first token, or empty for a blank line; the arguments are the other tokens, in order |
| `Commands.ParseWords` | Wish.Commands.Tests/CommandTests.cs:48-60 | a line made of a name and blank-free words parses into that name and those argument texts, the last an argument of path kind |
| `Commands.ParseCdSomedir` | Wish.Commands.Tests/CommandTests.cs:20-30 | "cd somedir" has function name "cd" and the single path argument "somedir" |
| `Commands.IsExit` | Wish.Commands.Tests/CommandTests.cs:69-95 | true exactly when the function name is `exit` |
| `Commands.ToString` | Wish.Commands.Tests/CommandTests.cs:97-102 | the raw text; for a parsed command, parsing it again gives the same command |
| `Commands.IsExitParse` | Wish.Commands.Tests/CommandTests.cs:69-95 | a line is the exit command if and only if its first token is exactly "exit" |
| `Commands.IsExitExamples` | Wish.Commands.Tests/CommandTests.cs:69-95 | "exit" is the exit command; "cd" and "cd somedir" are not |
| `Commands.ToStringOfParse` | Wish.Commands.Tests/CommandTests.cs:97-102 | ToString of a parsed line is the raw line, unchanged |
| `Commands.Complete` | Wish.Commands.Tests/CommandTests.cs:32-37 | no candidates without arguments; otherwise the path completion of the last argument |
| `Commands.CompleteWithoutArguments` | Wish.Commands.Tests/CommandTests.cs:32-37 | a line of at most one token offers no candidates, whatever the directory holds |
| `Commands.CompleteFunc` | Wish.Commands.Tests/CommandTests.cs:32-37 | "func" offers the empty sequence |
| `Commands.CompleteLastArgument` | Wish.Commands.Tests/CommandTests.cs:29 | with arguments, the candidates are those of the last token against the listing |
| `Commands.Execute` | Wish.Commands.Tests/CommandTests.cs:39-67 | the script given to the runner is the raw text, verbatim; the result's text is the runner's output and its working directory is the runner's |
| `Commands.ExecuteWorkingDirectoryUniform` | Wish.Commands.Tests/CommandTests.cs:104-121 | any two commands report the same working directory, the runner's, whether they change directory or not |
| `Commands.ExecuteExamples` | Wish.Commands.Tests/CommandTests.cs:104-121 | with the test runner, "cd somedir" and "command" both give text "testing" and directory `T:\somewhere\somedir` |
| `PathCompletion.Lower` | Wish.Commands.Tests/PowershellArgumentTests.cs:29-33 | ASCII folding: upper-case letters map to their lower-case letter, every other character is unchanged |
| `PathCompletion.StartsWithIgnoringCase` | Wish.Commands.Tests/PowershellArgumentTests.cs:28-40 | the name's first characters, case-folded, equal the case-folded typed text; the empty text and every exact prefix match |
| `PathCompletion.Quote` | Wish.Commands.Tests/PowershellArgumentTests.cs:64-69 | a string with a space is wrapped in single quotes as a whole; any other is unchanged |
| `PathCompletion.Candidate` | Wish.Commands.Tests/PowershellArgumentTests.cs:21-26 | an entry becomes `.\` followed by the name, the whole quoted when the name contains a space |
| `PathCompletion.Complete` | Wish.Commands.Tests/PowershellArgumentTests.cs:13-19 | a string is a candidate if and only if it is the candidate of some listed entry whose name starts with the typed text, ignoring case; there are no more candidates than entries |
| `PathCompletion.UndecorateCandidate` | Wish.Commands.Tests/PowershellArgumentTests.cs:21-26 | removing the quotes and the `.\` marker from a candidate gives back the entry name |
| `PathCompletion.CandidateInjective` | Wish.Commands.Tests/PowershellArgumentTests.cs:42-47 | different entries never give the same candidate |
| `PathCompletion.CandidateShape` | Wish.Commands.Tests/PowershellArgumentTests.cs:64-69 | a candidate is `.\` plus the name, or, for a name with a space, that string between single quotes |
| `PathCompletion.CompleteDistinct` | Wish.Commands.Tests/PowershellArgumentTests.cs:42-47 | over a listing without repeated names, no candidate appears twice |
| `PathCompletion.CompleteCount` | Wish.Commands.Tests/PowershellArgumentTests.cs:42-47 | over a listing without repeated names, the number of candidates equals the number of matching entries |
| `PathCompletion.CompleteIgnoresCase` | Wish.Commands.Tests/PowershellArgumentTests.cs:28-33 | typed texts that differ only in letter case give the same candidates |
| `PathCompletion.CompleteNarrows` | Wish.Commands.Tests/PowershellArgumentTests.cs:35-40 | typing more characters can only remove candidates; names that do not match are never offered |
| `PathCompletion.CompleteEmptyText` | Wish.Commands.Tests/PowershellArgumentTests.cs:49-62 | with nothing typed, every entry is offered, files and directories alike, one candidate each |
| `PathCompletion.CompleteDiValue` | Wish.Commands.Tests/PowershellArgumentTests.cs:21-47 | over the test directory, "di" gives exactly `.\dir1` and `.\Dir2` |
| `PathCompletion.CompleteDi` | Wish.Commands.Tests/PowershellArgumentTests.cs:21-47 | "di" offers `.\dir1` and `.\Dir2` (case ignored), does not offer `.\sample`, and offers two candidates |
| `PathCompletion.CompleteSaValue` | Wish.Commands.Tests/PowershellArgumentTests.cs:49-62 | over the test directory, "sa" gives exactly `.\sample` and `.\safiletest.txt` |
| `PathCompletion.CompleteSa` | Wish.Commands.Tests/PowershellArgumentTests.cs:49-62 | "sa" offers the directory `.\sample` and the file `.\safiletest.txt`, two in all |
| `PathCompletion.CompleteWi` | Wish.Commands.Tests/PowershellArgumentTests.cs:64-69 | "wi" offers `'.\with space'`, quoted as a whole |

## Left out

- The runner (`IRunner`) and process execution. `Execute` takes the runner's
  behaviour as a function from script to output, and takes its working
  directory after execution as a string.
- A command without a runner. The source leaves this untested: its one test is
  ignored and empty. The model does not pick a policy for it.
- Directory enumeration (`Path.Combine`, `Environment.CurrentDirectory`, the
  listing itself). The listing is passed in as a sequence of entry names.
  Completion keeps the listing's order, and the properties proved are about
  membership and counts. The test directory itself is not part of this model;
  the listing used for the test lemmas is `dir1`, `Dir2`, `sample`,
  `safiletest.txt` and `with space`, the entries the tests' assertions name.
- Unicode and culture-aware case folding. Only ASCII letters are folded.
- Whitespace other than `' '`. Tabs and other blanks do not separate tokens
  and do not trigger quoting.
- Normalizing a typed path before matching (for example, stripping a typed
  `.\`). The tests do not exercise it, and the `PowershellArgument` source is
  not part of this model.
- The internals of `Wish.Core.Command`. A history entry keeps only its `Name`.
  A null name is not modelled; `String.IsNullOrEmpty` becomes "the name is
  empty".
- A null `Command` in the history. The source's `Add` accepts null
  (Wish.Core/CommandHistory.cs:20). `GetNext` and `GetPrevious` can then
  return null on a non-empty list (:35, :46), and `Reset` throws a
  `NullReferenceException` when it reads `Name` (:51). The model's entries are
  never null, so `StepNext` and `StepPrevious` return None exactly on an empty
  history, and `AfterReset` never fails.
- Aliasing. `CommandHistory.Commands` hands out the live `List`, which a caller
  could mutate. The model returns the list as a value.
- Concurrency. The source is single-threaded and the model is sequential.
- Console I/O, key bindings and the test framework (NUnit, Moq).
