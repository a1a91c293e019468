/** What a run tells besides its rows: its messages, how it ended and which
    pane is in front (`Run::apply` in crates/sqail-ui/src/results.rs). */
module RunMessages {
  import opened Prelude
  import opened ResultSpec

  /** What a cell of a result shows: the cell sent, or NULL where the row sent
      was too short. */
  lemma CellsAreSent(t: Table, sent: (seq<string>, seq<seq<Cell>>), r: nat, c: nat)
    requires Shows(t, sent) && r < |sent.1| && c < |sent.0|
    ensures t.columns == sent.0 && |t.rows| == |sent.1| && |t.rows[r]| == |sent.0|
    ensures t.rows[r][c] == if c < |sent.1[r]| then sent.1[r][c] else Cell.Null
  {
  }

  /** The statement or the stream failed. */
  predicate IsFailure(input: Input) {
    input.Breaks? || (input.Arrives? && input.ev.Failure?)
  }

  /** What one input adds to the messages of a run that has failed or not. */
  function Tells(input: Input, failed: bool): seq<Message> {
    match input
    case Breaks(error) => [Message(Error, TextNote(error))]
    case Arrives(Failure(text)) => [Message(Error, TextNote(text))]
    case Arrives(Note(severity, text)) => [Message(severity, TextNote(text))]
    case Arrives(RowsAffected(count)) => [Message(Info, AffectedNote(count))]
    case Arrives(ResultEnd(i, rowCount, truncated)) => [Message(Info, ResultNote(i + 1, rowCount, truncated))]
    case Arrives(Done(cancelled, _)) =>
      [Message(Info, FinishedNote(if cancelled then "Cancelled" else if failed then "Failed" else "Completed"))]
    case _ => []
  }

  function Told(inputs: seq<Input>, failed: bool): seq<Message>
    decreases |inputs|
  {
    if inputs == [] then [] else Tells(inputs[0], failed) + Told(inputs[1..], failed || IsFailure(inputs[0]))
  }

  ghost predicate AnyFailure(inputs: seq<Input>) {
    exists i :: 0 <= i < |inputs| && IsFailure(inputs[i])
  }

  lemma StepTells(num: Numbers, w: World, input: Input)
    requires Allowed(w, input)
    ensures var r := Step(num, w, input).run;
            r.messages == w.run.messages + Tells(input, w.run.failed) &&
            r.failed == (w.run.failed || IsFailure(input))
  {
    assert w.run.messages + [] == w.run.messages;
    match input
    case Arrives(ev) => EventTells(w.run, ev); hide ApplyEvent; hide NextPhase; hide Sent;
    case Breaks(_) => hide Completed;
    case Sorts(_, _) => hide Toggled;
  }

  lemma EventTells(r: RunState, ev: Event)
    ensures ApplyEvent(r, ev).messages == r.messages + Tells(Arrives(ev), r.failed)
    ensures ApplyEvent(r, ev).failed == (r.failed || ev.Failure?)
  {
    hide FittedAll;
    hide Completed;
    assert r.messages + [] == r.messages;
  }

  /** Over every documented stream the messages are, in order, one line per
      end of a result, affected-rows count, note, failure and end of the
      stream: no error text is lost, and none made up. */
  lemma {:induction false} RunTells(num: Numbers, w: World, inputs: seq<Input>)
    requires Possible(num, w, inputs)
    ensures var r := After(num, w, inputs).run;
            r.messages == w.run.messages + Told(inputs, w.run.failed) && r.failed == (w.run.failed || AnyFailure(inputs))
    decreases |inputs|
  {
    if inputs == [] {
      assert w.run.messages + [] == w.run.messages;
    } else {
      var next := Step(num, w, inputs[0]);
      StepTells(num, w, inputs[0]);
      RunTells(num, next, inputs[1..]);
      FailureFirst(inputs);
      hide *;
      ToldFirst(inputs, w.run.failed);
      ConcatAssoc(w.run.messages, Tells(inputs[0], w.run.failed), Told(inputs[1..], next.run.failed));
      AfterFirst(num, w, inputs);
    }
  }

  lemma AfterFirst(num: Numbers, w: World, inputs: seq<Input>)
    requires Possible(num, w, inputs) && inputs != []
    ensures Allowed(w, inputs[0]) && Possible(num, Step(num, w, inputs[0]), inputs[1..])
    ensures After(num, w, inputs) == After(num, Step(num, w, inputs[0]), inputs[1..])
  {
    hide Step;
    hide Allowed;
  }

  lemma ToldFirst(inputs: seq<Input>, failed: bool)
    requires inputs != []
    ensures Told(inputs, failed) == Tells(inputs[0], failed) + Told(inputs[1..], failed || IsFailure(inputs[0]))
  {
  }

  lemma FailureFirst(inputs: seq<Input>)
    requires inputs != []
    ensures AnyFailure(inputs) <==> IsFailure(inputs[0]) || AnyFailure(inputs[1..])
  {
    hide IsFailure;
    if AnyFailure(inputs) {
      var i :| 0 <= i < |inputs| && IsFailure(inputs[i]);
      assert i > 0 ==> inputs[1..][i - 1] == inputs[i];
    }
    if AnyFailure(inputs[1..]) {
      var i :| 0 <= i < |inputs[1..]| && IsFailure(inputs[1..][i]);
      assert inputs[i + 1] == inputs[1..][i];
    }
  }

  lemma {:induction false} TextTold(inputs: seq<Input>, failed: bool, i: nat)
    requires i < |inputs| && inputs[i].Arrives? && inputs[i].ev.Failure?
    ensures Message(Error, TextNote(inputs[i].ev.message)) in Told(inputs, failed)
    decreases |inputs|
  {
    if i > 0 {
      TextTold(inputs[1..], failed || IsFailure(inputs[0]), i - 1);
    } else {
      assert Tells(inputs[0], failed)[0] == Message(Error, TextNote(inputs[0].ev.message));
    }
  }

  /** In particular every failed statement's text is shown. */
  lemma FailuresAreShown(num: Numbers, inputs: seq<Input>, i: nat)
    requires Possible(num, Fresh, inputs) && i < |inputs| && inputs[i].Arrives? && inputs[i].ev.Failure?
    ensures Message(Error, TextNote(inputs[i].ev.message)) in After(num, Fresh, inputs).run.messages
    ensures After(num, Fresh, inputs).run.failed
  {
    RunTells(num, Fresh, inputs);
    TextTold(inputs, false, i);
    hide After;
    hide Told;
    hide Possible;
    assert [] + Told(inputs, false) == Told(inputs, false);
  }

  /** The pane in front: the messages after a failure or without results, else
      the first result. */
  ghost predicate PaneFits(w: World) {
    w.run.pane == (if w.run.failed || w.run.results == [] then MessagesPane else ResultPane(0)) &&
    (w.phase.Before? ==> w.run.results == []) &&
    (w.run.failed ==> w.phase.Failing? || w.phase.Finished?) && |w.run.results| == |w.sent|
  }

  lemma StepPane(num: Numbers, w: World, input: Input)
    requires Allowed(w, input) && PaneFits(w)
    ensures PaneFits(Step(num, w, input))
  {
    match input
    case Arrives(ev) => EventPane(w, ev);
    case Breaks(_) =>
    case Sorts(_, _) => hide Toggled;
  }

  lemma EventPane(w: World, ev: Event)
    requires NextPhase(w.phase, ev).Some? && PaneFits(w)
    ensures PaneFits(World(ApplyEvent(w.run, ev), NextPhase(w.phase, ev).value, Sent(w.sent, ev)))
  {
    hide FittedAll;
    EventTells(w.run, ev);
    EventResults(w, ev);
  }

  lemma EventResults(w: World, ev: Event)
    requires |w.run.results| == |w.sent|
    ensures |ApplyEvent(w.run, ev).results| == |Sent(w.sent, ev)|
    ensures |ApplyEvent(w.run, ev).results| == |w.run.results| + if ev.ResultStart? then 1 else 0
  {
    hide FittedAll;
  }

  /** At any moment of a documented stream the user looks at the messages if
      something failed or there is no result yet, else at the first result. */
  lemma {:induction false} PaneInFront(num: Numbers, w: World, inputs: seq<Input>)
    requires PaneFits(w) && Possible(num, w, inputs)
    ensures PaneFits(After(num, w, inputs))
    decreases |inputs|
  {
    if inputs != [] {
      hide PaneFits;
      hide Allowed;
      hide Step;
      StepPane(num, w, inputs[0]);
      PaneInFront(num, Step(num, w, inputs[0]), inputs[1..]);
    }
  }

  /** Results are numbered as the stream numbers them. */
  predicate Counted(w: World) {
    (w.phase.Before? ==> w.run.results == []) && (w.phase.Between? ==> |w.run.results| == w.phase.n) &&
    (w.phase.Inside? ==> |w.run.results| == w.phase.n + 1)
  }

  /** What an event has told a run: the number of the query, whether a result
      was cut short, and how the query ended. */
  predicate Reported(w: World, input: Input) {
    match input
    case Arrives(Started(id)) => w.run.queryId == Some(id) && !w.phase.Before?
    case Arrives(ResultEnd(i, _, truncated)) =>
      i < |w.run.results| && w.run.results[i].complete && w.run.results[i].truncated == truncated && !w.phase.Before? &&
      (w.phase.Between? ==> i < w.phase.n) && (w.phase.Inside? ==> i < w.phase.n)
    case Arrives(Done(cancelled, inTransaction)) =>
      w.run.cancelled == cancelled && w.run.inTransaction == inTransaction && !w.run.running && w.phase.Finished?
    case _ => true
  }

  lemma StepReports(num: Numbers, w: World, input: Input)
    requires Allowed(w, input) && Counted(w)
    ensures Counted(Step(num, w, input)) && Reported(Step(num, w, input), input)
  {
    hide Toggled;
    hide FittedAll;
  }

  /** Later events do not take it back. */
  lemma ReportStays(num: Numbers, w: World, input: Input, before: Input)
    requires Allowed(w, input) && Counted(w) && Reported(w, before)
    ensures Reported(Step(num, w, input), before)
  {
    match input
    case Arrives(ev) => EventReportStays(w, ev, before);
    case Breaks(_) =>
    case Sorts(_, _) => hide SortedView;
  }

  lemma EventReportStays(w: World, ev: Event, before: Input)
    requires NextPhase(w.phase, ev).Some? && Counted(w) && Reported(w, before)
    ensures Reported(World(ApplyEvent(w.run, ev), NextPhase(w.phase, ev).value, Sent(w.sent, ev)), before)
  {
    hide FittedAll;
    hide Sent;
  }

  lemma {:induction false} ReportsStay(num: Numbers, w: World, inputs: seq<Input>, before: Input)
    requires Counted(w) && Possible(num, w, inputs) && Reported(w, before)
    ensures Reported(After(num, w, inputs), before)
    decreases |inputs|
  {
    if inputs != [] {
      hide Counted;
      hide Reported;
      hide Allowed;
      hide Step;
      StepReports(num, w, inputs[0]);
      ReportStays(num, w, inputs[0], before);
      ReportsStay(num, Step(num, w, inputs[0]), inputs[1..], before);
    }
  }

  /** Over every documented stream: the run knows the number of its query, a
      result is marked as cut short exactly as its end said, and the run was
      cancelled and left a transaction exactly as the end of the stream said,
      whatever came before and after. */
  lemma {:induction false} RunReports(num: Numbers, w: World, inputs: seq<Input>, i: nat)
    requires Counted(w) && Possible(num, w, inputs) && i < |inputs|
    ensures Reported(After(num, w, inputs), inputs[i])
    decreases |inputs|
  {
    hide Counted;
    hide Reported;
    hide Allowed;
    hide Step;
    StepReports(num, w, inputs[0]);
    if i == 0 {
      ReportsStay(num, Step(num, w, inputs[0]), inputs[1..], inputs[0]);
    } else {
      RunReports(num, Step(num, w, inputs[0]), inputs[1..], i - 1);
    }
  }
}
