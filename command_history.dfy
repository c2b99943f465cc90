/**
  The command history of the shell core (Wish.Core's CommandHistory): a
  newest-first list of entries and a cursor into it that wraps around in both
  directions. Stepping forward from the front first inserts a blank
  "currently editing" placeholder; resetting drops every blank entry and puts
  the cursor back at the front.

  The transitions are first stated as functions on a `State` value, which the
  lemmas about several steps use; the class `CommandHistory` keeps the two
  fields the source mutates and its methods are proved to make exactly those
  transitions.
*/
module History {
  import opened Wrappers

  /** A history entry; only the name of a recorded command matters here. */
  datatype Entry = Entry(name: string)

  /** The blank entry that stands for the line being edited. */
  const Placeholder: Entry := Entry("")

  /** The list of entries, newest first, and the cursor. */
  datatype State = State(commands: seq<Entry>, index: int) {
    /** The cursor points into a non-empty list, and is 0 for an empty one. */
    predicate Valid()
    {
      if commands == [] then index == 0 else 0 <= index < |commands|
    }
  }

  /** The outcome of a navigation step: the new state and the entry returned (None for null). */
  datatype Step = Step(state: State, result: Option<Entry>)

  /** The history before anything is added. */
  const Empty: State := State([], 0)

  /** The entries with a non-empty name, in their original order. */
  function KeepNamed(s: seq<Entry>): (r: seq<Entry>)
    ensures |r| <= |s|
    ensures forall i :: 0 <= i < |r| ==> r[i].name != ""
  {
    if s == [] then [] else (if s[0].name != "" then [s[0]] else []) + KeepNamed(s[1..])
  }

  /** An entry survives the filter exactly when it was there and has a name. */
  lemma {:induction false} KeepNamedMembers(s: seq<Entry>, e: Entry)
    ensures e in KeepNamed(s) <==> e in s && e.name != ""
  {
    if s != [] {
      KeepNamedMembers(s[1..], e);
      assert e in s <==> e == s[0] || e in s[1..];
    }
  }

  /** Adding puts the entry in front; the older entries follow unchanged and the cursor stays. */
  function AfterAdd(h: State, e: Entry): (r: State)
    requires h.Valid()
    ensures r.Valid()
    ensures |r.commands| == |h.commands| + 1 && r.commands[0] == e && r.commands[1..] == h.commands
    ensures r.index == h.index
  {
    State([e] + h.commands, h.index)
  }

  /** Stepping forward: a placeholder is inserted when the cursor is at the front, then the cursor advances and wraps. */
  function StepNext(h: State): (r: Step)
    requires h.Valid()
    ensures r.state.Valid()
    ensures r.result.None? <==> h.commands == []
    ensures h.commands == [] ==> r.state == h
    ensures r.result.Some? ==> 0 <= r.state.index < |r.state.commands| && r.result.value == r.state.commands[r.state.index]
    ensures h.commands != [] && h.index == 0 ==>
      r.state.commands == [Placeholder] + h.commands && r.state.index == 1 && r.result == Some(h.commands[0])
    ensures h.index != 0 ==> r.state.commands == h.commands
    ensures 0 < h.index < |h.commands| - 1 ==> r.state.index == h.index + 1
    ensures 0 < h.index == |h.commands| - 1 ==> r.state.index == 0 && r.result == Some(h.commands[0])
  {
    if h.commands == [] then Step(h, None)
    else
      var commands := if h.index == 0 then [Placeholder] + h.commands else h.commands;
      var index := if h.index + 1 >= |commands| then 0 else h.index + 1;
      Step(State(commands, index), Some(commands[index]))
  }

  /** Stepping back: the cursor moves back and wraps from the front to the oldest entry; nothing is inserted. */
  function StepPrevious(h: State): (r: Step)
    requires h.Valid()
    ensures r.state.Valid()
    ensures r.result.None? <==> h.commands == []
    ensures r.state.commands == h.commands
    ensures h.commands == [] ==> r.state == h
    ensures h.index > 0 ==> r.state.index == h.index - 1
    ensures h.commands != [] && h.index == 0 ==> r.state.index == |h.commands| - 1
    ensures r.result.Some? ==> 0 <= r.state.index < |r.state.commands| && r.result.value == r.state.commands[r.state.index]
    ensures h.commands != [] && h.index == 0 ==> r.result == Some(h.commands[|h.commands| - 1])
  {
    if h.commands == [] then Step(h, None)
    else
      var index := if h.index - 1 < 0 then |h.commands| - 1 else h.index - 1;
      Step(State(h.commands, index), Some(h.commands[index]))
  }

  /** Resetting keeps the named entries and returns the cursor to the front. */
  function AfterReset(h: State): (r: State)
    ensures r.Valid()
    ensures r.index == 0
    ensures r.commands == KeepNamed(h.commands)
    ensures forall e :: e in r.commands ==> e.name != ""
  {
    State(KeepNamed(h.commands), 0)
  }

  /** Filtering distributes over concatenation, so the relative order of the kept entries is the original one. */
  lemma {:induction false} KeepNamedAppend(a: seq<Entry>, b: seq<Entry>)
    ensures KeepNamed(a + b) == KeepNamed(a) + KeepNamed(b)
  {
    if a == [] {
      assert a + b == b;
    } else {
      var head := if a[0].name != "" then [a[0]] else [];
      assert a + b != [] && (a + b)[0] == a[0];
      assert (a + b)[1..] == a[1..] + b;
      assert KeepNamed(a + b) == head + KeepNamed(a[1..] + b);
      KeepNamedAppend(a[1..], b);
    }
  }

  /** A list without blank entries is left as it is. */
  lemma {:induction false} KeepNamedOfNamed(s: seq<Entry>)
    requires forall e :: e in s ==> e.name != ""
    ensures KeepNamed(s) == s
  {
    if s != [] {
      assert s[0] in s;
      assert forall e :: e in s[1..] ==> e in s;
      KeepNamedOfNamed(s[1..]);
    }
  }

  /** Filtering twice is filtering once. */
  lemma KeepNamedIdempotent(s: seq<Entry>)
    ensures KeepNamed(KeepNamed(s)) == KeepNamed(s)
  {
    KeepNamedOfNamed(KeepNamed(s));
  }

  /** No named entry is dropped: each one is kept as many times as it occurs, and no blank one survives. */
  lemma {:induction false} KeepNamedCounts(s: seq<Entry>, e: Entry)
    ensures e.name != "" ==> multiset(KeepNamed(s))[e] == multiset(s)[e]
    ensures e.name == "" ==> multiset(KeepNamed(s))[e] == 0
  {
    if s != [] {
      KeepNamedCounts(s[1..], e);
      assert s == [s[0]] + s[1..];
    }
  }

  /** Resetting twice is resetting once. */
  lemma ResetIdempotent(h: State)
    ensures AfterReset(AfterReset(h)) == AfterReset(h)
  {
    KeepNamedIdempotent(h.commands);
  }

  /** A reset removes every blank entry, so a list of placeholders vanishes entirely. */
  lemma ResetDropsBlanks(s: seq<Entry>)
    requires forall i :: 0 <= i < |s| ==> s[i].name == ""
    ensures KeepNamed(s) == []
  {
  }

  /** The placeholder a forward step inserts is removed again by a reset. */
  lemma ResetDropsPlaceholders(s: seq<Entry>)
    ensures KeepNamed([Placeholder] + s) == KeepNamed(s)
  {
    assert ([Placeholder] + s)[1..] == s;
  }

  /** The command history: the mutable list of entries, newest first, and the cursor. */
  class CommandHistory {
    var commands: seq<Entry>
    var index: int

    /** The class invariant: the cursor always addresses an entry of a non-empty list. */
    ghost predicate Valid()
      reads this
    {
      State(commands, index).Valid()
    }

    /** The value of the history, for stating what the methods do. */
    ghost function Value(): (v: State)
      reads this
    {
      State(commands, index)
    }

    constructor ()
      ensures Valid()
      ensures Value() == Empty
    {
      commands := [];
      index := 0;
    }

    /** The recorded entries, newest first; the cursor addresses one of them whenever there are any. */
    function Commands(): (r: seq<Entry>)
      reads this
      requires Valid()
      ensures r != [] ==> 0 <= index < |r|
      ensures r == [] ==> index == 0
    {
      commands
    }

    /** Records an entry as the newest. */
    method Add(c: Entry)
      requires Valid()
      modifies this
      ensures Valid()
      ensures commands == [c] + old(commands) && index == old(index)
      ensures Value() == AfterAdd(old(Value()), c)
    {
      commands := [c] + commands;
    }

    /** Moves the cursor forward; null (None) on an empty history. */
    method GetNext() returns (r: Option<Entry>)
      requires Valid()
      modifies this
      ensures Valid()
      ensures Step(Value(), r) == StepNext(old(Value()))
      ensures r.Some? ==> r.value == commands[index]
    {
      if |commands| == 0 {
        return None;
      }
      if index == 0 {
        commands := [Placeholder] + commands;
      }
      index := index + 1;
      if index >= |commands| {
        index := 0;
      }
      r := Some(commands[index]);
    }

    /** Moves the cursor back; null (None) on an empty history. */
    method GetPrevious() returns (r: Option<Entry>)
      requires Valid()
      modifies this
      ensures Valid()
      ensures Step(Value(), r) == StepPrevious(old(Value()))
      ensures commands == old(commands)
      ensures r.Some? ==> r.value == commands[index]
    {
      if |commands| == 0 {
        return None;
      }
      index := index - 1;
      if index < 0 {
        index := |commands| - 1;
      }
      r := Some(commands[index]);
    }

    /** Drops every blank entry and puts the cursor back at the front. */
    method Reset()
      requires Valid()
      modifies this
      ensures Valid()
      ensures Value() == AfterReset(old(Value()))
      ensures commands == KeepNamed(old(commands)) && index == 0
    {
      commands := KeepNamed(commands);
      index := 0;
    }
  }

  /** A client session: three commands are recorded, recalled, and the placeholder is reclaimed. */
  method Session(a: Entry, b: Entry, c: Entry) returns (oldest: Option<Entry>, newest: Option<Entry>, kept: seq<Entry>)
    requires a.name != "" && b.name != "" && c.name != ""
    ensures oldest == Some(a) && newest == Some(c)
    ensures kept == [c, b, a]
  {
    var history := new CommandHistory();
    var none := history.GetNext();
    assert none == None;
    history.Add(a);
    history.Add(b);
    history.Add(c);
    assert history.Commands() == [c, b, a];
    oldest := history.GetPrevious();
    assert oldest == Some(a);
    KeepNamedOfNamed([c, b, a]);
    history.Reset();
    assert history.Commands() == [c, b, a] && history.index == 0;
    newest := history.GetNext();
    assert newest == Some(c);
    assert history.Commands() == [Placeholder, c, b, a];
    ResetDropsPlaceholders([c, b, a]);
    history.Reset();
    kept := history.Commands();
    assert kept == [c, b, a] && history.index == 0;
  }
}
