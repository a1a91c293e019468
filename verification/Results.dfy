/** Query results: the flat cell buffer of a result set, its sorted view, and
    the run that collects streamed events (crates/sqail-ui/src/results.rs). */
module ResultSpec {
  import opened Prelude
  import SortKeys
  import StableSort

  datatype Cell = Null | Bool(b: bool) | Int(i: int) | Float(f: int) | Text(s: string)

  /** How numbers in text and integers beside floats are read for sorting. */
  datatype Numbers = Numbers(parse: string -> Option<int>, round: int -> int)

  function SortKey(num: Numbers, c: Cell): SortKeys.SortKey {
    match c
    case Null => SortKeys.Null
    case Bool(b) => SortKeys.Bool(b)
    case Int(i) => SortKeys.Int(i)
    case Float(f) => SortKeys.Float(f)
    case Text(s) => SortKeys.Text(num.parse(s), s)
  }

  /** A row padded with NULLs or cut to `width` cells. */
  function Fitted(row: seq<Cell>, width: nat): (r: seq<Cell>)
    ensures |r| == width
  {
    if |row| >= width then row[..width] else row + seq(width - |row|, _ => Null)
  }

  function FittedAll(rows: seq<seq<Cell>>, width: nat): seq<seq<Cell>> {
    seq(|rows|, i requires 0 <= i < |rows| => Fitted(rows[i], width))
  }

  /** A result set as rows: what the flat buffer stands for. */
  datatype Table = Table(columns: seq<string>, rows: seq<seq<Cell>>, complete: bool, truncated: bool,
                         sort: Option<(nat, bool)>, order: Option<seq<nat>>)
  {
    ghost predicate Valid() {
      forall i :: 0 <= i < |rows| ==> |rows[i]| == |columns|
    }
  }

  function Keys(num: Numbers, rows: seq<seq<Cell>>, col: nat): seq<SortKeys.SortKey>
    requires forall i :: 0 <= i < |rows| ==> col < |rows[i]|
  {
    seq(|rows|, i requires 0 <= i < |rows| => SortKey(num, rows[i][col]))
  }

  /** The sorted view of `rows` by column `col`. */
  function SortedView(num: Numbers, rows: seq<seq<Cell>>, col: nat, ascending: bool): seq<nat>
    requires forall i :: 0 <= i < |rows| ==> col < |rows[i]|
  {
    StableSort.Sort(StableSort.RowOrder(num.round, Keys(num, rows, col), ascending), |rows|)
  }

  /** Ascending, then descending, then unsorted. */
  function NextSort(sort: Option<(nat, bool)>, col: nat): Option<(nat, bool)> {
    if sort == Some((col, true)) then Some((col, false))
    else if sort == Some((col, false)) then None
    else Some((col, true))
  }

  function Toggled(num: Numbers, t: Table, col: nat): Table
    requires t.Valid() && col < |t.columns|
  {
    var sort := NextSort(t.sort, col);
    t.(sort := sort,
       order := if sort.None? then None else Some(SortedView(num, t.rows, col, sort.value.1)))
  }

  /** Index of the row displayed at `pos`. */
  function RowIndex(t: Table, pos: nat): nat
    requires t.order.Some? ==> pos < |t.order.value|
  {
    if t.order.None? then pos else t.order.value[pos]
  }

  datatype Severity = Info | Warning | Error
  datatype Note =
    | ResultNote(index: nat, rowCount: nat, truncated: bool)
    | AffectedNote(count: nat)
    | TextNote(text: string)
    | FinishedNote(what: string)
  datatype Message = Message(severity: Severity, note: Note)
  datatype Pane = ResultPane(index: nat) | MessagesPane

  datatype Event =
    | Started(id: nat)
    | ResultStart(index: nat, columns: seq<string>)
    | Rows(index: nat, rows: seq<seq<Cell>>)
    | ResultEnd(index: nat, rowCount: nat, truncated: bool)
    | RowsAffected(count: nat)
    | Note(severity: Severity, text: string)
    | Failure(message: string)
    | Done(cancelled: bool, inTransaction: Option<bool>)
    | Unknown

  datatype RunState = RunState(results: seq<Table>, messages: seq<Message>, queryId: Option<nat>,
                               running: bool, cancelled: bool, failed: bool,
                               inTransaction: Option<bool>, pane: Pane)

  const NewRun := RunState([], [], None, true, false, false, None, MessagesPane)

  function EmptyTable(columns: seq<string>): Table {
    Table(columns, [], false, false, None, None)
  }

  function Told(r: RunState, severity: Severity, note: Note): RunState {
    r.(messages := r.messages + [Message(severity, note)])
  }

  function Completed(ts: seq<Table>): seq<Table> {
    seq(|ts|, i requires 0 <= i < |ts| => ts[i].(complete := true))
  }

  /** Nothing is running any more and every result is complete. */
  function Finish(r: RunState): RunState {
    r.(running := false, results := Completed(r.results))
  }

  /** A failure of the stream itself. */
  function Fail(r: RunState, error: string): RunState {
    Finish(Told(r, Error, TextNote(error)).(failed := true)).(pane := MessagesPane)
  }

  /** What one event does to a run. */
  function ApplyEvent(r: RunState, ev: Event): RunState {
    match ev
    case Started(id) => r.(queryId := Some(id))
    case Unknown => r
    case ResultStart(_, columns) =>
      var results := r.results + [EmptyTable(columns)];
      r.(results := results, pane := if |results| == 1 then ResultPane(0) else r.pane)
    case Rows(i, rows) =>
      if i >= |r.results| then r
      else
        var t := r.results[i];
        r.(results := r.results[i := t.(rows := t.rows + FittedAll(rows, |t.columns|))])
    case ResultEnd(i, rowCount, truncated) =>
      var ended := if i >= |r.results| then r
                   else r.(results := r.results[i := r.results[i].(complete := true, truncated := truncated)]);
      Told(ended, Info, ResultNote(i + 1, rowCount, truncated))
    case RowsAffected(count) => Told(r, Info, AffectedNote(count))
    case Note(severity, text) => Told(r, severity, TextNote(text))
    case Failure(message) => Told(r.(failed := true), Error, TextNote(message)).(pane := MessagesPane)
    case Done(cancelled, inTransaction) =>
      var ended := Finish(r.(cancelled := cancelled, inTransaction := inTransaction));
      var what := if cancelled then "Cancelled" else if r.failed then "Failed" else "Completed";
      var told := Told(ended, Info, FinishedNote(what));
      if told.results == [] || told.failed then told.(pane := MessagesPane) else told
  }

  /** What happens to a run: an event arrives, the stream breaks, or the user
      clicks the sort arrow of a column. */
  datatype Input = Arrives(ev: Event) | Breaks(error: string) | Sorts(result: nat, col: nat)

  /** Where a stream stands in its documented order. */
  datatype Phase = Before | Between(n: nat) | Inside(n: nat) | Failing | Finished

  /** The documented order of events (crates/sqail-proto/src/lib.rs:584-589). */
  function NextPhase(p: Phase, ev: Event): Option<Phase> {
    match (p, ev)
    case (Finished, _) => None
    case (_, Unknown) => Some(p)
    case (_, Note(_, _)) => Some(p)
    case (Before, Started(_)) => Some(Between(0))
    case (Between(n), ResultStart(i, _)) => if i == n then Some(Inside(n)) else None
    case (Between(n), RowsAffected(_)) => Some(Between(n))
    case (Inside(n), Rows(i, _)) => if i == n then Some(Inside(n)) else None
    case (Inside(n), ResultEnd(i, _, _)) => if i == n then Some(Between(n + 1)) else None
    case (Between(_), Failure(_)) => Some(Failing)
    case (Inside(_), Failure(_)) => Some(Failing)
    case (Between(_), Done(_, _)) => Some(Finished)
    case (Failing, Done(_, _)) => Some(Finished)
    case (_, _) => None
  }

  /** A run together with where its stream stands and what was sent. */
  datatype World = World(run: RunState, phase: Phase, sent: seq<(seq<string>, seq<seq<Cell>>)>)

  const Fresh := World(NewRun, Before, [])

  /** What was sent, kept from the events alone. */
  function Sent(sent: seq<(seq<string>, seq<seq<Cell>>)>, ev: Event): seq<(seq<string>, seq<seq<Cell>>)> {
    match ev
    case ResultStart(_, columns) => sent + [(columns, [])]
    case Rows(i, rows) => if i >= |sent| then sent else sent[i := (sent[i].0, sent[i].1 + rows)]
    case _ => sent
  }

  /** The inputs a documented stream and the grid allow: the sort arrow only
      works on complete results (crates/sqail-ui/src/grid.rs:1151-1156). */
  ghost predicate Allowed(w: World, input: Input) {
    match input
    case Arrives(ev) => NextPhase(w.phase, ev).Some?
    case Breaks(_) => w.phase != Finished
    case Sorts(i, col) =>
      i < |w.run.results| && w.run.results[i].complete && w.run.results[i].Valid() &&
      col < |w.run.results[i].columns|
  }

  ghost function Step(num: Numbers, w: World, input: Input): World
    requires Allowed(w, input)
  {
    match input
    case Arrives(ev) => World(ApplyEvent(w.run, ev), NextPhase(w.phase, ev).value, Sent(w.sent, ev))
    case Breaks(error) => w.(run := Fail(w.run, error), phase := Finished)
    case Sorts(i, col) =>
      w.(run := w.run.(results := w.run.results[i := Toggled(num, w.run.results[i], col)]))
  }

  /** A permutation of the row indices. */
  ghost predicate OnePerRow(order: seq<nat>, n: nat) {
    |order| == n && multiset(order) == multiset(StableSort.Positions(n))
  }

  /** The grid shows the sent rows, fitted to the columns; a sorted view has
      one entry per row. */
  ghost predicate Shows(t: Table, sent: (seq<string>, seq<seq<Cell>>)) {
    t.columns == sent.0 && t.rows == FittedAll(sent.1, |sent.0|) &&
    (t.order.Some? ==> t.complete && OnePerRow(t.order.value, |t.rows|))
  }

  /** The invariant of every run fed by a documented stream. */
  ghost predicate Invariant(w: World) {
    |w.run.results| == |w.sent| &&
    (forall i :: 0 <= i < |w.sent| ==> Shows(w.run.results[i], w.sent[i])) &&
    (w.run.running <==> w.phase != Finished) &&
    (w.phase.Before? ==> w.sent == []) &&
    (w.phase.Between? ==> w.phase.n == |w.sent|) &&
    (w.phase.Inside? ==> w.phase.n + 1 == |w.sent|) &&
    (forall i | 0 <= i < |w.sent| && !(w.phase.Inside? && i == w.phase.n) && !w.phase.Failing? ::
       w.run.results[i].complete) &&
    (w.phase.Inside? ==> !w.run.results[w.phase.n].complete) &&
    (w.run.pane.ResultPane? ==> w.run.pane.index < |w.run.results|)
  }

  lemma FittedAllAppends(a: seq<seq<Cell>>, b: seq<seq<Cell>>, width: nat)
    ensures FittedAll(a + b, width) == FittedAll(a, width) + FittedAll(b, width)
  {
  }

  lemma ShowsMore(t: Table, sent: (seq<string>, seq<seq<Cell>>), rows: seq<seq<Cell>>)
    requires Shows(t, sent) && !t.complete
    ensures Shows(t.(rows := t.rows + FittedAll(rows, |t.columns|)), (sent.0, sent.1 + rows))
  {
    FittedAllAppends(sent.1, rows, |sent.0|);
  }

  lemma ShowsSorted(num: Numbers, t: Table, sent: (seq<string>, seq<seq<Cell>>), col: nat)
    requires Shows(t, sent) && t.complete && t.Valid() && col < |t.columns|
    ensures Shows(Toggled(num, t, col), sent) && Toggled(num, t, col).complete
  {
    var asc := NextSort(t.sort, col) == Some((col, true));
    StableSort.SortIsPermutation(StableSort.RowOrder(num.round, Keys(num, t.rows, col), asc), |t.rows|);
  }

  lemma EventKeepsInvariant(w: World, ev: Event)
    requires Invariant(w) && NextPhase(w.phase, ev).Some?
    ensures Invariant(World(ApplyEvent(w.run, ev), NextPhase(w.phase, ev).value, Sent(w.sent, ev)))
  {
    match ev
    case Rows(i, rows) =>
      ShowsMore(w.run.results[i], w.sent[i], rows);
      hide Shows;
      hide FittedAll;
    case ResultStart(_, columns) =>
      assert Shows(EmptyTable(columns), (columns, []));
      hide Shows;
    case _ =>
      hide FittedAll;
  }

  lemma StepKeepsInvariant(num: Numbers, w: World, input: Input)
    requires Invariant(w) && Allowed(w, input)
    ensures Invariant(Step(num, w, input))
  {
    match input
    case Arrives(ev) => EventKeepsInvariant(w, ev);
    case Breaks(_) =>
    case Sorts(i, col) => ShowsSorted(num, w.run.results[i], w.sent[i], col); hide Shows; hide Toggled;
  }

  /** Every input of the list is allowed when it comes. */
  ghost predicate Possible(num: Numbers, w: World, inputs: seq<Input>)
    decreases |inputs|
  {
    inputs == [] || (Allowed(w, inputs[0]) && Possible(num, Step(num, w, inputs[0]), inputs[1..]))
  }

  ghost function After(num: Numbers, w: World, inputs: seq<Input>): World
    requires Possible(num, w, inputs)
    decreases |inputs|
  {
    if inputs == [] then w else After(num, Step(num, w, inputs[0]), inputs[1..])
  }

  lemma {:induction false} InvariantHolds(num: Numbers, w: World, inputs: seq<Input>)
    requires Invariant(w) && Possible(num, w, inputs)
    ensures Invariant(After(num, w, inputs))
    decreases |inputs|
  {
    if inputs != [] {
      hide Invariant;
      hide Allowed;
      hide Step;
      StepKeepsInvariant(num, w, inputs[0]);
      InvariantHolds(num, Step(num, w, inputs[0]), inputs[1..]);
    }
  }

  function TotalRows(ts: seq<Table>): nat {
    if ts == [] then 0 else |ts[0].rows| + TotalRows(ts[1..])
  }

  function TotalSent(sent: seq<(seq<string>, seq<seq<Cell>>)>): nat {
    if sent == [] then 0 else |sent[0].1| + TotalSent(sent[1..])
  }

  lemma {:induction false} TotalsAgree(ts: seq<Table>, sent: seq<(seq<string>, seq<seq<Cell>>)>)
    requires |ts| == |sent| && forall i :: 0 <= i < |sent| ==> Shows(ts[i], sent[i])
    ensures TotalRows(ts) == TotalSent(sent)
  {
    if ts != [] {
      TotalsAgree(ts[1..], sent[1..]);
    }
  }

  /** Nothing is running, everything is complete and no row is missing. */
  ghost predicate Settled(w: World) {
    !w.run.running && TotalRows(w.run.results) == TotalSent(w.sent) &&
    forall i :: 0 <= i < |w.run.results| ==> w.run.results[i].complete
  }

  /** Over every documented stream, with sorting whenever the grid allows it:
      the results show exactly what was sent, and once the stream has ended
      nothing is running, everything is complete and no row is missing. */
  lemma EveryRunShowsWhatWasSent(num: Numbers, inputs: seq<Input>)
    requires Possible(num, Fresh, inputs)
    ensures var w := After(num, Fresh, inputs);
            |w.run.results| == |w.sent| && forall i :: 0 <= i < |w.sent| ==> Shows(w.run.results[i], w.sent[i])
    ensures After(num, Fresh, inputs).phase == Finished ==> Settled(After(num, Fresh, inputs))
  {
    InvariantHolds(num, Fresh, inputs);
    var w := After(num, Fresh, inputs);
    TotalsAgree(w.run.results, w.sent);
  }

  /** Rows of a result keep arriving only while it is incomplete; sorted
      before that, the view would go stale. */
  lemma SortingEarlyGoesStale(num: Numbers)
    ensures var open := EmptyTable(["n"]);
            var later := ApplyEvent(NewRun.(results := [Toggled(num, open, 0)]), Rows(0, [[Int(1)]])).results[0];
            later.order.Some? && |later.order.value| == 0 && |later.rows| == 1
  {
    var open := EmptyTable(["n"]);
    StableSort.SortIsPermutation(StableSort.RowOrder(num.round, Keys(num, open.rows, 0), true), 0);
  }

  /** Three clicks on one arrow: ascending, descending, and back to the rows
      as they arrived. */
  lemma ThreeTogglesRestore(num: Numbers, t: Table, col: nat)
    requires t.Valid() && col < |t.columns| && (t.sort.None? <==> t.order.None?)
    requires t.sort.None? || t.sort.value.0 != col
    ensures var once := Toggled(num, t, col);
            var twice := Toggled(num, once, col);
            once.order == Some(SortedView(num, t.rows, col, true)) &&
            twice.order == Some(SortedView(num, t.rows, col, false)) &&
            Toggled(num, twice, col) == t.(sort := None, order := None)
  {
  }

  /** A view sorted on a column without clashes is the stable sorted
      permutation of its rows. */
  lemma ViewIsStableSort(num: Numbers, t: Table, col: nat, ascending: bool)
    requires t.Valid() && col < |t.columns| && SortKeys.Monotone(num.round)
    requires !SortKeys.Clash(num.round, Keys(num, t.rows, col))
    ensures StableSort.IsStableSort(StableSort.RowOrder(num.round, Keys(num, t.rows, col), ascending),
                                    |t.rows|, SortedView(num, t.rows, col, ascending))
  {
    StableSort.SortedViewIsStable(num.round, Keys(num, t.rows, col), ascending);
  }
}

module Results {
  import opened Prelude
  import opened ResultSpec

  lemma RowBounds(i: nat, len: nat, width: nat)
    requires i < len
    ensures i * width + width == (i + 1) * width <= len * width
  {
    assert len * width == (i + 1) * width + (len - i - 1) * width;
    assert (len - i - 1) * width >= 0;
  }

  /** Row `i` of a flat buffer of `len` rows. */
  function RawRow(cells: seq<Cell>, len: nat, width: nat, i: nat): (row: seq<Cell>)
    requires |cells| == len * width && i < len
    ensures |row| == width
  {
    RowBounds(i, len, width);
    cells[i * width..(i + 1) * width]
  }

  /** The rows a flat buffer stands for. */
  function RawRows(cells: seq<Cell>, len: nat, width: nat): seq<seq<Cell>>
    requires |cells| == len * width
  {
    seq(len, i requires 0 <= i < len => RawRow(cells, len, width, i))
  }

  /** Appending `width` cells appends a row and moves no other. */
  lemma RawRowsAppend(cells: seq<Cell>, len: nat, width: nat, row: seq<Cell>)
    requires |cells| == len * width && |row| == width
    ensures |cells + row| == (len + 1) * width
    ensures RawRows(cells + row, len + 1, width) == RawRows(cells, len, width) + [row]
  {
    RowBounds(len, len + 1, width);
    forall i: nat | i < len
      ensures RawRow(cells + row, len + 1, width, i) == RawRow(cells, len, width, i)
    {
      RowBounds(i, len, width);
      var (a, b) := (i * width, (i + 1) * width);
      assert (cells + row)[a..b] == cells[a..b];
    }
    assert (cells + row)[len * width..(len + 1) * width] == row;
  }

  /** A result set: every cell, row after row, in one buffer. */
  class ResultSet {
    const columns: seq<string>
    var cells: seq<Cell>
    var len: nat
    var complete: bool
    var truncated: bool
    var sort: Option<(nat, bool)>
    var order: Option<seq<nat>>

    ghost predicate Valid()
      reads this
    {
      |cells| == len * |columns|
    }

    /** The table this buffer stands for. */
    ghost function View(): (t: Table)
      reads this
      requires Valid()
      ensures t.Valid() && |t.rows| == len
    {
      Table(columns, RawRows(cells, len, |columns|), complete, truncated, sort, order)
    }

    constructor (columns: seq<string>)
      ensures Valid() && View() == EmptyTable(columns)
    {
      this.columns := columns;
      cells, len := [], 0;
      complete, truncated, sort, order := false, false, None, None;
    }

    /** Append a row, padded with NULLs or cut to the column count. */
    method PushRow(row: seq<Cell>)
      requires Valid()
      modifies this`cells, this`len
      ensures Valid() && View() == old(View()).(rows := old(View()).rows + [Fitted(row, |columns|)])
    {
      var width := |columns|;
      var start := |cells|;
      ghost var before := cells;
      cells := cells + if |row| > width then row[..width] else row;
      cells := cells + seq(start + width - |cells|, _ => Null);
      assert cells == before + Fitted(row, width);
      RawRowsAppend(before, len, width, Fitted(row, width));
      len := len + 1;
    }

    /** Append a batch of rows. */
    method PushRows(rows: seq<seq<Cell>>)
      requires Valid()
      modifies this`cells, this`len
      ensures Valid()
      ensures View() == old(View()).(rows := old(View()).rows + FittedAll(rows, |columns|))
    {
      var k := 0;
      while k < |rows|
        invariant k <= |rows| && Valid()
        invariant View() == old(View()).(rows := old(View()).rows + FittedAll(rows[..k], |columns|))
      {
        PushRow(rows[k]);
        assert FittedAll(rows[..k + 1], |columns|) == FittedAll(rows[..k], |columns|) + [Fitted(rows[k], |columns|)];
        k := k + 1;
      }
      assert rows[..k] == rows;
    }

    /** Cycle ascending, descending, unsorted for column `col`. */
    method ToggleSort(num: Numbers, col: nat)
      requires Valid() && col < |columns|
      modifies this`sort, this`order
      ensures Valid() && View() == Toggled(num, old(View()), col)
    {
      sort := match sort
        case Some((c, true)) => if c == col then Some((col, false)) else Some((col, true))
        case Some((c, false)) => if c == col then None else Some((col, true))
        case None => Some((col, true));
      if sort.None? {
        order := None;
      } else {
        var rows := RawRows(cells, len, |columns|);
        order := Some(SortedView(num, rows, sort.value.0, sort.value.1));
      }
    }
  }

  /** Well-formed result sets, no two of them the same object. */
  ghost predicate Separate(results: seq<ResultSet>)
    reads results
  {
    (forall i :: 0 <= i < |results| ==> results[i].Valid()) &&
    (forall i, j :: 0 <= i < j < |results| ==> results[i] != results[j])
  }

  ghost function TablesOf(results: seq<ResultSet>): (ts: seq<Table>)
    reads results
    requires Separate(results)
    ensures |ts| == |results|
  {
    seq(|results|, i reads results requires Separate(results) && 0 <= i < |results| => results[i].View())
  }

  /** One execution of SQL and the results it has brought so far. */
  class Run {
    var results: seq<ResultSet>
    var messages: seq<Message>
    var queryId: Option<nat>
    var running: bool
    var cancelled: bool
    var failed: bool
    var inTransaction: Option<bool>
    var pane: Pane

    ghost predicate Valid()
      reads this`results, results
    {
      Separate(results)
    }

    ghost function Tables(): (ts: seq<Table>)
      reads this`results, results
      requires Valid()
    {
      TablesOf(results)
    }

    ghost function View(): RunState
      reads this, results
      requires Valid()
    {
      RunState(Tables(), messages, queryId, running, cancelled, failed, inTransaction, pane)
    }

    constructor ()
      ensures Valid() && View() == NewRun && results == []
    {
      results, messages, queryId := [], [], None;
      running, cancelled, failed, inTransaction, pane := true, false, false, None, MessagesPane;
    }

    method Tell(severity: Severity, note: Note)
      requires Valid()
      modifies this`messages
      ensures Valid() && View() == Told(old(View()), severity, note)
    {
      messages := messages + [Message(severity, note)];
    }

    /** Mark every result complete. */
    method CompleteAll()
      requires Valid()
      modifies results
      ensures Valid() && Tables() == Completed(old(Tables()))
    {
      var i := 0;
      while i < |results|
        invariant i <= |results| && Valid()
        invariant forall k :: 0 <= k < i ==> results[k].View() == old(results[k].View()).(complete := true)
        invariant forall k :: i <= k < |results| ==> results[k].View() == old(results[k].View())
      {
        results[i].complete := true;
        i := i + 1;
      }
    }

    /** The run has ended: nothing is running, every result is complete. */
    method Finish()
      requires Valid()
      modifies this`running, results
      ensures Valid() && View() == ResultSpec.Finish(old(View()))
    {
      running := false;
      CompleteAll();
    }

    /** The stream could not start or broke. */
    method Fail(error: string)
      requires Valid()
      modifies this, results
      ensures Valid() && View() == ResultSpec.Fail(old(View()), error) && results == old(results)
    {
      hide ResultSpec.Completed;
      hide TablesOf;
      hide Separate;
      Tell(Error, TextNote(error));
      failed := true;
      Finish();
      pane := MessagesPane;
    }

    /** A batch of rows for result `i`; an unknown result ignores them. */
    method PushRows(i: nat, rows: seq<seq<Cell>>)
      requires Valid()
      modifies results
      ensures Valid() && View() == ApplyEvent(old(View()), Rows(i, rows))
    {
      if i < |results| {
        ghost var before := Tables();
        results[i].PushRows(rows);
        assert Tables() == before[i := results[i].View()];
      }
    }

    /** A new result starts; the first one is shown. */
    method StartResult(columns: seq<string>)
      requires Valid()
      modifies this`results, this`pane
      ensures Valid()
      ensures View() == ApplyEvent(old(View()), ResultStart(0, columns))
      ensures forall i :: 0 <= i < |results| ==> results[i] in old(results) || fresh(results[i])
    {
      var rs := new ResultSet(columns);
      ghost var was := Tables();
      results := results + [rs];
      assert Tables() == was + [EmptyTable(columns)];
      if |results| == 1 { pane := ResultPane(0); }
    }

    /** Result `i` is complete. */
    method EndResult(i: nat, rowCount: nat, truncated: bool)
      requires Valid()
      modifies this`messages, results
      ensures Valid() && View() == ApplyEvent(old(View()), ResultEnd(i, rowCount, truncated))
    {
      if i < |results| {
        ghost var before := Tables();
        results[i].complete := true;
        results[i].truncated := truncated;
        assert Tables() == before[i := results[i].View()];
      }
      messages := messages + [Message(Info, ResultNote(i + 1, rowCount, truncated))];
    }

    /** A statement failed. */
    method Stumble(message: string)
      requires Valid()
      modifies this`failed, this`messages, this`pane
      ensures Valid() && View() == ApplyEvent(old(View()), Failure(message))
    {
      failed := true;
      Tell(Error, TextNote(message));
      pane := MessagesPane;
    }

    /** The last event. */
    method Conclude(cancelled: bool, inTransaction: Option<bool>)
      requires Valid()
      modifies this, results
      ensures Valid() && View() == ApplyEvent(old(View()), Event.Done(cancelled, inTransaction))
      ensures results == old(results)
    {
      hide ResultSpec.Completed;
      hide TablesOf;
      hide Separate;
      this.cancelled := cancelled;
      this.inTransaction := inTransaction;
      Finish();
      var what := if cancelled then "Cancelled" else if failed then "Failed" else "Completed";
      Tell(Info, FinishedNote(what));
      if results == [] || failed { pane := MessagesPane; }
    }

    /** One streamed event, in place. Result sets are only ever added. */
    method Apply(ev: Event)
      requires Valid()
      modifies this, results
      ensures Valid() && View() == ApplyEvent(old(View()), ev)
      ensures forall i :: 0 <= i < |results| ==> results[i] in old(results) || fresh(results[i])
    {
      match ev
      case ResultStart(_, columns) => StartResult(columns);
      case Rows(i, rows) => PushRows(i, rows);
      case ResultEnd(i, rowCount, truncated) => EndResult(i, rowCount, truncated);
      case Failure(message) => Stumble(message);
      case Done(cancelled, inTransaction) => Conclude(cancelled, inTransaction);
      case Started(id) => queryId := Some(id);
      case Unknown =>
      case RowsAffected(count) => Tell(Info, AffectedNote(count));
      case Note(severity, text) => Tell(severity, TextNote(text));
    }

    /** A click on the sort arrow of a column. */
    method SortBy(num: Numbers, i: nat, col: nat)
      requires Valid() && i < |results| && col < |results[i].columns|
      modifies results
      ensures Valid() && View().results[i].Valid() && i < |old(View()).results| && old(View()).results[i].Valid()
      ensures View() == old(View()).(results := old(View()).results[i := Toggled(num, old(View()).results[i], col)])
    {
      ghost var before := Tables();
      results[i].ToggleSort(num, col);
      assert Tables() == before[i := results[i].View()];
    }

    /** Whatever comes next: an event, a break of the stream, or a click. */
    method Take(num: Numbers, input: Input, ghost w: World)
      requires Valid() && View() == w.run && Allowed(w, input)
      modifies this, results
      ensures Valid() && View() == Step(num, w, input).run
      ensures forall i :: 0 <= i < |results| ==> results[i] in old(results) || fresh(results[i])
    {
      match input
      case Arrives(ev) => Apply(ev);
      case Breaks(error) => Fail(error);
      case Sorts(i, col) => SortBy(num, i, col);
    }

    /** A whole stream with the clicks in between, in place: the run object
        goes where the specification says every run goes. */
    method Follow(num: Numbers, inputs: seq<Input>, ghost w: World)
      requires Valid() && View() == w.run && Possible(num, w, inputs)
      modifies this, results
      ensures Valid() && View() == After(num, w, inputs).run
    {
      ghost var now := w;
      ghost var goal := After(num, w, inputs);
      assert inputs[0..] == inputs;
      var k := 0;
      while k < |inputs|
        invariant k <= |inputs| && Valid() && View() == now.run
        invariant Possible(num, now, inputs[k..]) && After(num, now, inputs[k..]) == goal
        invariant forall i :: 0 <= i < |results| ==> results[i] in old(results) || fresh(results[i])
      {
        hide *;
        NextInput(num, now, inputs, k);
        Take(num, inputs[k], now);
        now := Step(num, now, inputs[k]);
        k := k + 1;
      }
    }
  }

  lemma NextInput(num: Numbers, w: World, inputs: seq<Input>, k: nat)
    requires k < |inputs| && Possible(num, w, inputs[k..])
    ensures Allowed(w, inputs[k]) && Possible(num, Step(num, w, inputs[k]), inputs[k + 1..])
    ensures After(num, w, inputs[k..]) == After(num, Step(num, w, inputs[k]), inputs[k + 1..])
  {
    hide Allowed;
    hide Step;
    assert inputs[k..][0] == inputs[k] && inputs[k..][1..] == inputs[k + 1..];
  }

  /** A new run fed with a documented stream shows exactly what was sent. */
  method ShowStream(num: Numbers, inputs: seq<Input>) returns (run: Run)
    requires Possible(num, Fresh, inputs)
    ensures run.Valid() && run.View() == After(num, Fresh, inputs).run
    ensures var w := After(num, Fresh, inputs);
            |run.View().results| == |w.sent| &&
            (forall i :: 0 <= i < |w.sent| ==> Shows(run.View().results[i], w.sent[i])) &&
            (w.phase == Finished ==> Settled(w))
  {
    EveryRunShowsWhatWasSent(num, inputs);
    run := new Run();
    hide After;
    hide Possible;
    hide Shows;
    hide Settled;
    run.Follow(num, inputs, Fresh);
  }
}
