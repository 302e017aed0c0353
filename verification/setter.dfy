/**
 * The dialog in which the user marks each estimated variable as determined
 * or gives it an initial guess. The widgets are keyed `determined_<name>`,
 * `guess_<name>` and `value_<name>`; the Submit button is keyed `exit`.
 *
 * `toFloat` stands for `float(text)` (its `str()` where it succeeds, `None`
 * where Python raises ValueError).
 */
module StatusDialog {
  import opened Wrappers
  import opened Text

  /** An entry of `variable_status`: `None`, `"determined"`, or the float typed in. */
  datatype Status = Unset | Determined | Guess(value: string)

  /** What `window.read()` reports: the window was closed, or the widget with `key` fired while its box held `text`. */
  datatype Event = Closed | Fired(key: string, text: string)

  /** What one pass of `run`'s loop does: go on with a new status map, return, or raise. */
  datatype Step = Continue(status: map<string, Status>) | Exit | Raise

  /** How `run` ends on a finite run of events: it returned the status map, raised, or is still waiting for an event. */
  datatype Outcome = Returned(status: map<string, Status>) | Raised | Waiting(status: map<string, Status>)

  /** `{x: None for x in names}`. */
  function Initial(names: seq<string>): (status: map<string, Status>)
    ensures status.Keys == set x | x in names
    ensures forall x :: x in status ==> status[x] == Unset
  {
    map x | x in names :: Unset
  }

  /** `None not in variable_status.values()`. */
  predicate AllSet(status: map<string, Status>) {
    forall x :: x in status ==> status[x] != Unset
  }

  /** The name part of a widget key: what follows the `_`. */
  function Base(key: string): string {
    var parts := SplitOn(key, '_');
    if |parts| == 2 then parts[1] else []
  }

  /**
   * One pass of `run`'s loop. Closing the window or pressing Submit returns
   * only once every variable has a status. Any other key is split at `_`
   * (an unpacking error unless there are exactly two parts). A value event
   * stores the typed number, or nothing when it does not parse; an event
   * whose key contains `guess` only shows the input box; any other sets the
   * variable to determined.
   */
  function StepOf(status: map<string, Status>, event: Event, toFloat: string -> Option<string>): Step {
    if event.Closed? || event.key == "exit" then
      if AllSet(status) then Exit else Continue(status)
    else
      var parts := SplitOn(event.key, '_');
      if |parts| != 2 then Raise
      else if parts[0] == "value" then
        var f := toFloat(event.text);
        if f.Some? then Continue(status[parts[1] := Guess(f.value)]) else Continue(status)
      else if Contains(event.key, "guess") then Continue(status)
      else Continue(status[parts[1] := Determined])
  }

  /** `run` on the events `events`, from the status map `status`. */
  function RunOf(status: map<string, Status>, events: seq<Event>, toFloat: string -> Option<string>): Outcome
    decreases |events|
  {
    if events == [] then Waiting(status)
    else
      match StepOf(status, events[0], toFloat)
      case Exit => Returned(status)
      case Raise => Raised
      case Continue(next) => RunOf(next, events[1..], toFloat)
  }

  // ---------------------------------------------------------------- the dialog

  class VariableSetter {
    var names: seq<string>
    var status: map<string, Status>

    /** `GUIVariableSetter.__init__`: every variable starts without a status. */
    constructor(names: seq<string>)
      ensures this.names == names && status == Initial(names)
    {
      this.names := names;
      status := Initial(names);
    }

    /** `run`: handle events in order until the dialog returns or raises, or the events run out. */
    method Run(events: seq<Event>, toFloat: string -> Option<string>) returns (outcome: Outcome)
      modifies this
      ensures outcome == RunOf(old(status), events, toFloat)
      ensures outcome.Returned? || outcome.Waiting? ==> status == outcome.status
      ensures names == old(names)
    {
      var i := 0;
      while i < |events|
        invariant 0 <= i <= |events| && names == old(names)
        invariant RunOf(old(status), events, toFloat) == RunOf(status, events[i..], toFloat)
      {
        assert events[i..][1..] == events[i + 1..];
        var step := StepOf(status, events[i], toFloat);
        match step
        case Exit => return Returned(status);
        case Raise => return Raised;
        case Continue(next) => status := next;
        i := i + 1;
      }
      return Waiting(status);
    }
  }

  // ---------------------------------------------------------------- properties

  /** Closing or submitting returns only once every variable has a status, and changes nothing otherwise. */
  lemma ExitNeedsAll(status: map<string, Status>, event: Event, toFloat: string -> Option<string>)
    requires event.Closed? || event.key == "exit"
    ensures StepOf(status, event, toFloat) == Exit <==> AllSet(status)
    ensures !AllSet(status) ==> StepOf(status, event, toFloat) == Continue(status)
  {
  }

  /** The dialog returns a status map only when no variable is left without a status. */
  lemma {:induction false} ReturnsAllSet(status: map<string, Status>, events: seq<Event>, toFloat: string -> Option<string>)
    ensures RunOf(status, events, toFloat).Returned? ==> AllSet(RunOf(status, events, toFloat).status)
    decreases |events|
  {
    if events != [] {
      match StepOf(status, events[0], toFloat)
      case Exit =>
      case Raise =>
      case Continue(next) => ReturnsAllSet(next, events[1..], toFloat);
    }
  }

  /** An event changes at most the variable its key names; every other variable keeps its status. */
  lemma StepTouchesOnlyBase(status: map<string, Status>, event: Event, toFloat: string -> Option<string>)
    requires event.Fired? && StepOf(status, event, toFloat).Continue?
    ensures var next := StepOf(status, event, toFloat).status;
      forall x :: x != Base(event.key) ==> (x in next <==> x in status) && (x in status ==> next[x] == status[x])
  {
  }

  /** An event about a variable of the dialog leaves the set of variables as it is. */
  lemma StepKeepsNames(status: map<string, Status>, event: Event, toFloat: string -> Option<string>)
    requires StepOf(status, event, toFloat).Continue?
    requires event.Fired? && event.key != "exit" ==> Base(event.key) in status
    ensures StepOf(status, event, toFloat).status.Keys == status.Keys
  {
  }

  /** Events about the dialog's own variables never change which variables it holds. */
  predicate AboutNames(status: map<string, Status>, events: seq<Event>) {
    forall i :: 0 <= i < |events| && events[i].Fired? && events[i].key != "exit" ==> Base(events[i].key) in status
  }

  /** A run of events about the dialog's variables returns a map over exactly those variables, each with a status. */
  lemma {:induction false} RunKeepsNames(status: map<string, Status>, events: seq<Event>, toFloat: string -> Option<string>)
    requires AboutNames(status, events)
    ensures RunOf(status, events, toFloat).Returned? ==>
      RunOf(status, events, toFloat).status.Keys == status.Keys && AllSet(RunOf(status, events, toFloat).status)
    decreases |events|
  {
    ReturnsAllSet(status, events, toFloat);
    if events != [] {
      match StepOf(status, events[0], toFloat)
      case Exit =>
      case Raise =>
      case Continue(next) =>
        StepKeepsNames(status, events[0], toFloat);
        assert AboutNames(next, events[1..]) by {
          forall i | 0 <= i < |events[1..]| && events[1..][i].Fired? && events[1..][i].key != "exit"
            ensures Base(events[1..][i].key) in next
          {
            assert events[1..][i] == events[i + 1];
          }
        }
        RunKeepsNames(next, events[1..], toFloat);
    }
  }

  /** `s.split(c)` of two parts without `c` joined by one `c`. */
  lemma {:induction false} SplitOnPair(a: string, b: string, c: char)
    requires c !in a && c !in b
    ensures SplitOn(a + [c] + b, c) == [a, b]
  {
    var s := a + [c] + b;
    if a == [] {
      assert s[1..] == b;
      SplitOnAbsent(b, c);
    } else {
      assert s[1..] == a[1..] + [c] + b;
      assert s[0] == a[0] && a[0] != c;
      SplitOnPair(a[1..], b, c);
      assert [a[0]] + a[1..] == a;
    }
  }

  lemma {:induction false} SplitOnAbsent(s: string, c: char)
    requires c !in s
    ensures SplitOn(s, c) == [s]
  {
    if s != [] {
      assert s[0] != c;
      SplitOnAbsent(s[1..], c);
      assert [s[0]] + s[1..] == s;
    }
  }

  /** Pressing a variable's Determined button sets it to determined (its name holds no `_` and no `guess`). */
  lemma DeterminedSets(status: map<string, Status>, name: string, text: string, toFloat: string -> Option<string>)
    requires '_' !in name && !Contains("determined_" + name, "guess")
    ensures StepOf(status, Fired("determined_" + name, text), toFloat) == Continue(status[name := Determined])
  {
    SplitOnPair("determined", name, '_');
    assert "determined_" + name == "determined" + ['_'] + name;
  }

  /** Pressing a variable's Initial Guess button changes no status: it only shows the input box. */
  lemma GuessKeeps(status: map<string, Status>, name: string, text: string, toFloat: string -> Option<string>)
    requires '_' !in name
    ensures StepOf(status, Fired("guess_" + name, text), toFloat) == Continue(status)
  {
    SplitOnPair("guess", name, '_');
    assert "guess_" + name == "guess" + ['_'] + name;
    assert ("guess_" + name)[..5] == "guess";
  }

  /** Typing a number sets the variable to it; typing anything else changes no status. */
  lemma ValueSets(status: map<string, Status>, name: string, text: string, toFloat: string -> Option<string>)
    requires '_' !in name
    ensures toFloat(text).Some? ==>
      StepOf(status, Fired("value_" + name, text), toFloat) == Continue(status[name := Guess(toFloat(text).value)])
    ensures toFloat(text).None? ==> StepOf(status, Fired("value_" + name, text), toFloat) == Continue(status)
  {
    SplitOnPair("value", name, '_');
    assert "value_" + name == "value" + ['_'] + name;
  }

  /** No event removes a variable: a returned status map still has every variable the dialog started with. */
  lemma {:induction false} RunKeepsStarting(status: map<string, Status>, events: seq<Event>, toFloat: string -> Option<string>)
    ensures RunOf(status, events, toFloat).Returned? ==> status.Keys <= RunOf(status, events, toFloat).status.Keys
    decreases |events|
  {
    if events != [] {
      match StepOf(status, events[0], toFloat)
      case Exit =>
      case Raise =>
      case Continue(next) =>
        assert status.Keys <= next.Keys;
        RunKeepsStarting(next, events[1..], toFloat);
    }
  }
}
