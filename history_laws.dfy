/**
  Properties of the command history that span several calls: navigating and
  then resetting, cycling backward through the whole list, and the order in
  which stepping forward visits the entries.
*/
module HistoryLaws {
  import opened Wrappers
  import opened History

  /** A key press that navigates the history. */
  datatype Move = GoNext | GoPrevious

  /** The state after a sequence of navigation steps. */
  function Navigate(h: State, moves: seq<Move>): (r: State)
    requires h.Valid()
    ensures r.Valid()
    decreases |moves|
  {
    if moves == [] then h
    else
      var step := if moves[0] == GoNext then StepNext(h) else StepPrevious(h);
      Navigate(step.state, moves[1..])
  }

  /** `after` is `s` with some placeholders in front of it. */
  predicate PlaceholdersThen(after: seq<Entry>, s: seq<Entry>)
  {
    |s| <= |after| && after[|after| - |s|..] == s &&
    forall i :: 0 <= i < |after| - |s| ==> after[i] == Placeholder
  }

  /** Placeholders in front of a placeholder in front of `s` are placeholders in front of `s`. */
  lemma PlaceholdersThenCons(after: seq<Entry>, s: seq<Entry>)
    requires PlaceholdersThen(after, [Placeholder] + s)
    ensures PlaceholdersThen(after, s)
  {
    var d := |after| - |s| - 1;
    assert after[d..] == [Placeholder] + s;
    assert after[d + 1..] == after[d..][1..];
    assert after[d] == Placeholder;
  }

  /** Navigation only ever puts placeholders in front of the list. */
  lemma {:induction false} NavigateAddsPlaceholders(h: State, moves: seq<Move>)
    requires h.Valid()
    ensures PlaceholdersThen(Navigate(h, moves).commands, h.commands)
    decreases |moves|
  {
    if moves == [] {
      assert Navigate(h, moves) == h;
      var s := h.commands;
      assert s[|s| - |s|..] == s;
    } else {
      var next := if moves[0] == GoNext then StepNext(h).state else StepPrevious(h).state;
      assert Navigate(h, moves) == Navigate(next, moves[1..]);
      NavigateAddsPlaceholders(next, moves[1..]);
      if next.commands != h.commands {
        assert next.commands == [Placeholder] + h.commands;
        PlaceholdersThenCons(Navigate(h, moves).commands, h.commands);
      }
    }
  }

  /** However the user navigates, a reset afterwards restores the named history as it was before. */
  lemma ResetAfterNavigate(h: State, moves: seq<Move>)
    requires h.Valid()
    ensures AfterReset(Navigate(h, moves)) == AfterReset(h)
  {
    NavigateAddsPlaceholders(h, moves);
    var after := Navigate(h, moves).commands;
    var d := |after| - |h.commands|;
    assert after == after[..d] + after[d..];
    KeepNamedAppend(after[..d], after[d..]);
    ResetDropsBlanks(after[..d]);
  }

  /** `n` steps back. */
  function PreviousTimes(h: State, n: nat): (r: State)
    requires h.Valid()
    ensures r.Valid()
    decreases n
  {
    if n == 0 then h else PreviousTimes(StepPrevious(h).state, n - 1)
  }

  /** Steps back compose: `a` steps and then `b` more are `a + b` steps. */
  lemma {:induction false} PreviousTimesAdd(h: State, a: nat, b: nat)
    requires h.Valid()
    ensures PreviousTimes(h, a + b) == PreviousTimes(PreviousTimes(h, a), b)
    decreases a
  {
    if a > 0 {
      PreviousTimesAdd(StepPrevious(h).state, a - 1, b);
    }
  }

  /** Without reaching the front, `k` steps back move the cursor `k` places toward the newest entry. */
  lemma {:induction false} PreviousTimesDown(h: State, k: nat)
    requires h.Valid() && k <= h.index
    ensures PreviousTimes(h, k) == State(h.commands, h.index - k)
    decreases k
  {
    if k > 0 {
      PreviousTimesDown(StepPrevious(h).state, k - 1);
    }
  }

  /** From cursor position `i`, `i + 1` steps back reach the oldest entry. */
  lemma {:induction false} PreviousReachesOldest(h: State)
    requires h.Valid() && h.commands != []
    ensures PreviousTimes(h, h.index + 1) == State(h.commands, |h.commands| - 1)
    decreases h.index
  {
    var next := StepPrevious(h).state;
    if h.index == 0 {
      assert PreviousTimes(h, 1) == PreviousTimes(next, 0);
    } else {
      PreviousReachesOldest(next);
    }
  }

  /** Stepping back once per entry goes all the way round and changes nothing: repeated presses cycle. */
  lemma PreviousCycles(h: State)
    requires h.Valid() && h.commands != []
    ensures PreviousTimes(h, |h.commands|) == h
  {
    var len, i := |h.commands|, h.index;
    var oldest := State(h.commands, len - 1);
    var m, rest := i + 1, len - 1 - i;
    PreviousReachesOldest(h);
    assert PreviousTimes(h, m) == oldest;
    PreviousTimesDown(oldest, rest);
    assert PreviousTimes(oldest, rest) == State(h.commands, i);
    PreviousTimesAdd(h, m, rest);
    assert PreviousTimes(h, m + rest) == State(h.commands, i);
    assert m + rest == len;
    assert State(h.commands, i) == h;
  }

  /** After a full cycle, stepping back `n` more times is the same as stepping back `n` times. */
  lemma PreviousPeriodic(h: State, n: nat)
    requires h.Valid() && h.commands != []
    ensures PreviousTimes(h, |h.commands| + n) == PreviousTimes(h, n)
  {
    PreviousTimesAdd(h, |h.commands|, n);
    PreviousCycles(h);
  }

  /** `n` steps forward. */
  function NextTimes(h: State, n: nat): (r: State)
    requires h.Valid()
    ensures r.Valid()
    decreases n
  {
    if n == 0 then h else NextTimes(StepNext(h).state, n - 1)
  }

  /**
    From the front of a non-empty history, the first step forward inserts one
    placeholder and each step moves one entry older.
  */
  lemma {:induction false} NextTimesFromFront(s: seq<Entry>, n: nat)
    requires s != [] && 1 <= n <= |s|
    ensures NextTimes(State(s, 0), n) == State([Placeholder] + s, n)
  {
    if n == 1 {
      assert StepNext(State(s, 0)).state == State([Placeholder] + s, 1);
      assert NextTimes(State(s, 0), 1) == NextTimes(State([Placeholder] + s, 1), 0);
    } else {
      NextTimesFromFront(s, n - 1);
      NextTimesStep(State(s, 0), n - 1);
    }
  }

  /** One step more than there are entries brings the cursor back to the placeholder it inserted. */
  lemma NextTimesReturnsToPlaceholder(s: seq<Entry>)
    requires s != []
    ensures NextTimes(State(s, 0), |s| + 1) == State([Placeholder] + s, 0)
    ensures StepNext(NextTimes(State(s, 0), |s|)).result == Some(Placeholder)
  {
    NextTimesFromFront(s, |s|);
    NextTimesStep(State(s, 0), |s|);
  }

  /**
    Back at the front, the next forward step inserts a second placeholder and
    returns the first one: placeholders pile up until the next reset.
  */
  lemma SecondPassInsertsAgain(s: seq<Entry>)
    ensures StepNext(State([Placeholder] + s, 0)) == Step(State([Placeholder, Placeholder] + s, 1), Some(Placeholder))
  {
    assert [Placeholder] + ([Placeholder] + s) == [Placeholder, Placeholder] + s;
  }

  /** Splitting off the last of `n` forward steps. */
  lemma {:induction false} NextTimesStep(h: State, n: nat)
    requires h.Valid()
    ensures NextTimes(h, n + 1) == StepNext(NextTimes(h, n)).state
    decreases n
  {
    if n > 0 {
      NextTimesStep(StepNext(h).state, n - 1);
    }
  }

  /** The state after adding the given entries one after the other. */
  function AddAll(h: State, es: seq<Entry>): (r: State)
    requires h.Valid()
    ensures r.Valid()
    decreases |es|
  {
    if es == [] then h else AddAll(AfterAdd(h, es[0]), es[1..])
  }

  /** Adding A, B and C to an empty history gives [C, B, A]. */
  lemma AddScenario(a: Entry, b: Entry, c: Entry)
    ensures AddAll(Empty, [a, b, c]) == State([c, b, a], 0)
  {
    var one, two, three := State([a], 0), State([b, a], 0), State([c, b, a], 0);
    assert AfterAdd(Empty, a) == one && AfterAdd(one, b) == two && AfterAdd(two, c) == three;
    assert [a, b, c][0] == a && [a, b, c][1..] == [b, c];
    assert [b, c][0] == b && [b, c][1..] == [c];
    assert [c][0] == c && [c][1..] == [];
    assert AddAll(Empty, [a, b, c]) == AddAll(one, [b, c]);
    assert AddAll(one, [b, c]) == AddAll(two, [c]);
    assert AddAll(two, [c]) == AddAll(three, []);
  }

  /** Stepping back from the front of [C, B, A] visits A, B, C and then A again. */
  lemma PreviousScenario(a: Entry, b: Entry, c: Entry)
    ensures StepPrevious(State([c, b, a], 0)) == Step(State([c, b, a], 2), Some(a))
    ensures StepPrevious(State([c, b, a], 2)) == Step(State([c, b, a], 1), Some(b))
    ensures StepPrevious(State([c, b, a], 1)) == Step(State([c, b, a], 0), Some(c))
  {
  }

  /** Stepping forward from the front of [C, B, A] inserts a placeholder, then visits C, B, A and the placeholder. */
  lemma NextScenario(a: Entry, b: Entry, c: Entry)
    ensures StepNext(State([c, b, a], 0)) == Step(State([Placeholder, c, b, a], 1), Some(c))
    ensures StepNext(State([Placeholder, c, b, a], 1)) == Step(State([Placeholder, c, b, a], 2), Some(b))
    ensures StepNext(State([Placeholder, c, b, a], 2)) == Step(State([Placeholder, c, b, a], 3), Some(a))
    ensures StepNext(State([Placeholder, c, b, a], 3)) == Step(State([Placeholder, c, b, a], 0), Some(Placeholder))
  {
  }

}
