/** The edit buffer of a result grid and the actions that change it
    (`EditState` in crates/sqail-ui/src/editing.rs, driven by
    crates/sqail-ui/src/grid.rs). */
module EditSpec {
  import opened Prelude
  import opened ColumnSpec
  import ResultSpec
  import Tsv

  /** The text of a cell; `None` is NULL. */
  type Value = Option<string>

  /** The grid being edited: the original texts by row and column, the row
      shown at each display position, and what each column may be written to. */
  datatype Grid = Grid(rows: seq<seq<Value>>, order: seq<nat>, target: seq<Option<ColumnInfo>>, pk: seq<nat>)
  {
    ghost predicate Valid() {
      |order| == |rows| &&
      (forall i :: 0 <= i < |order| ==> order[i] < |rows|) &&
      (forall r :: 0 <= r < |rows| ==> |rows[r]| == |target|)
    }

    predicate Editable(col: nat) {
      col < |target| && target[col].Some?
    }
  }

  /** The grid over a table of results. */
  function GridOf(t: ResultSpec.Table, show: (nat, ResultSpec.Cell) -> string, e: Editable): Grid {
    Grid(seq(|t.rows|, r requires 0 <= r < |t.rows| =>
           seq(|t.rows[r]|, c requires 0 <= c < |t.rows[r]| =>
             if t.rows[r][c].Null? then None else Some(show(c, t.rows[r][c])))),
         if t.order.Some? then t.order.value else seq(|t.rows|, i requires 0 <= i < |t.rows| => i),
         e.target, e.pk)
  }

  /** The grid shows the table's cells: at each position the row of the sorted
      view, NULL as NULL and anything else as its text on screen. */
  lemma GridShowsTable(t: ResultSpec.Table, show: (nat, ResultSpec.Cell) -> string, e: Editable, pos: nat, c: nat)
    requires Tsv.ViewFits(t) && pos < |t.rows| && c < |t.columns|
    ensures var (g, r) := (GridOf(t, show, e), if t.order.Some? then t.order.value[pos] else pos);
            |g.order| == |g.rows| == |t.rows| && g.order[pos] == r && |g.rows[r]| == |t.columns| &&
            g.rows[r][c] == (if t.rows[r][c].Null? then None else Some(show(c, t.rows[r][c]))) &&
            g.target == e.target && g.pk == e.pk
  {
  }

  /** Pending edits: changed cells by row and column, deleted rows, new rows
      (per column a value, or nothing last use the default), and the cell the
      inline editor is open on. */
  datatype Edits = Edits(changes: map<nat, map<nat, Value>>, deleted: set<nat>,
                         inserted: seq<seq<Option<Value>>>, editing: Option<(nat, nat)>)

  const NoEdits := Edits(map[], {}, [], None)

  /** An original row, or a new one. */
  datatype RowRef = Existing(row: nat) | New(index: nat)

  function RowAt(g: Grid, pos: nat): RowRef
    requires g.Valid()
  {
    if pos < |g.rows| then Existing(g.order[pos]) else New(pos - |g.rows|)
  }

  function Positions(g: Grid, e: Edits): nat {
    |g.rows| + |e.inserted|
  }

  /** `EditState::set`: setting a cell back to its original drops the change,
      and a row without changes is forgotten. */
  function SetCell(g: Grid, e: Edits, row: nat, col: nat, value: Value): Edits
    requires g.Valid() && row < |g.rows| && col < |g.target|
  {
    var entry := if row in e.changes then e.changes[row] else map[];
    var updated := if value == g.rows[row][col] then entry - {col} else entry[col := value];
    e.(changes := if updated == map[] then e.changes - {row} else e.changes[row := updated])
  }

  /** What a cell of an original row shows: the pending value or its own. */
  function CellShows(g: Grid, e: Edits, row: nat, col: nat): Value
    requires g.Valid() && row < |g.rows| && col < |g.target|
  {
    if row in e.changes && col in e.changes[row] then e.changes[row][col] else g.rows[row][col]
  }

  /** A set cell shows its new value, and no other cell changes. */
  lemma SetCellShows(g: Grid, e: Edits, row: nat, col: nat, value: Value, r: nat, c: nat)
    requires g.Valid() && row < |g.rows| && col < |g.target| && r < |g.rows| && c < |g.target|
    ensures CellShows(g, SetCell(g, e, row, col, value), r, c) ==
            if r == row && c == col then value else CellShows(g, e, r, c)
  {
    var entry := if row in e.changes then e.changes[row] else map[];
    var updated := if value == g.rows[row][col] then entry - {col} else entry[col := value];
    assert c != col ==> (c in updated <==> c in entry);
    assert updated == map[] ==> c !in updated;
  }

  /** Every recorded change matters: on an editable column of a row of the
      grid, different from the original; new rows fill editable columns. */
  ghost predicate Normal(g: Grid, e: Edits) {
    (forall r :: r in e.changes ==> r < |g.rows| && RealChange(g, r, e.changes[r])) &&
    (forall r :: r in e.deleted ==> r < |g.rows|) &&
    (forall i :: 0 <= i < |e.inserted| ==> NewRowFits(g, e.inserted[i])) &&
    (e.editing.Some? ==> g.Editable(e.editing.value.1))
  }

  ghost predicate RealChange(g: Grid, r: nat, cells: map<nat, Value>)
    requires r < |g.rows|
  {
    cells != map[] &&
    forall c :: c in cells ==> g.Editable(c) && c < |g.rows[r]| && cells[c] != g.rows[r][c]
  }

  ghost predicate NewRowFits(g: Grid, row: seq<Option<Value>>) {
    |row| == |g.target| && forall c :: 0 <= c < |row| && row[c].Some? ==> g.Editable(c)
  }

  lemma SetCellKeepsNormal(g: Grid, e: Edits, row: nat, col: nat, value: Value)
    requires g.Valid() && Normal(g, e) && row < |g.rows| && g.Editable(col)
    ensures Normal(g, SetCell(g, e, row, col, value))
  {
    var entry := if row in e.changes then e.changes[row] else map[];
    var updated := if value == g.rows[row][col] then entry - {col} else entry[col := value];
    assert forall c :: c in entry ==> g.Editable(c) && c < |g.rows[row]| && entry[c] != g.rows[row][c];
    assert updated != map[] ==> RealChange(g, row, updated);
    var t := SetCell(g, e, row, col, value);
    forall r | r in t.changes ensures r < |g.rows| && RealChange(g, r, t.changes[r]) {
      if r != row {
        assert t.changes[r] == e.changes[r];
      }
    }
  }

  function SetNewCell(e: Edits, i: nat, col: nat, value: Option<Value>): Edits
    requires i < |e.inserted| && col < |e.inserted[i]|
  {
    e.(inserted := e.inserted[i := e.inserted[i][col := value]])
  }

  /** Put `value` (or the default) into the cell at a display position. There
      is nothing to index when the position is past the last new row. */
  function PutCell(g: Grid, e: Edits, pos: nat, col: nat, value: Option<Value>): Option<Edits>
    requires g.Valid() && Normal(g, e) && g.Editable(col)
  {
    match RowAt(g, pos)
    case Existing(row) => Some(if value.Some? then SetCell(g, e, row, col, value.value) else e)
    case New(i) => if i < |e.inserted| then Some(SetNewCell(e, i, col, value)) else None
  }

  lemma PutCellKeepsNormal(g: Grid, e: Edits, pos: nat, col: nat, value: Option<Value>)
    requires g.Valid() && Normal(g, e) && g.Editable(col) && PutCell(g, e, pos, col, value).Some?
    ensures Normal(g, PutCell(g, e, pos, col, value).value)
    ensures |PutCell(g, e, pos, col, value).value.inserted| == |e.inserted|
  {
    match RowAt(g, pos)
    case Existing(row) =>
      if value.Some? { SetCellKeepsNormal(g, e, row, col, value.value); }
    case New(i) =>
  }

  /** The editable columns among the selected ones. */
  function EditableCols(g: Grid, first: nat, last: nat): seq<nat>
    decreases |g.target| - first
  {
    if first > last || first >= |g.target| then []
    else (if g.Editable(first) then [first] else []) + EditableCols(g, first + 1, last)
  }

  lemma {:induction false} EditableColsAre(g: Grid, first: nat, last: nat)
    ensures forall i :: 0 <= i < |EditableCols(g, first, last)| ==> g.Editable(EditableCols(g, first, last)[i])
    decreases |g.target| - first
  {
    if first <= last && first < |g.target| {
      EditableColsAre(g, first + 1, last);
    }
  }

  ghost predicate AllEditable(g: Grid, cols: seq<nat>) {
    forall i :: 0 <= i < |cols| ==> g.Editable(cols[i])
  }

  /** The same value into several cells of one position. */
  function PutCols(g: Grid, e: Edits, pos: nat, cols: seq<nat>, value: Option<Value>): (r: Option<Edits>)
    requires g.Valid() && Normal(g, e) && AllEditable(g, cols)
    ensures r.Some? ==> Normal(g, r.value) && |r.value.inserted| == |e.inserted|
    ensures r.None? <==> cols != [] && pos >= Positions(g, e)
    decreases |cols|
  {
    if cols == [] then Some(e)
    else
      var put := PutCell(g, e, pos, cols[0], value);
      if put.None? then None
      else
        PutCellKeepsNormal(g, e, pos, cols[0], value);
        PutCols(g, put.value, pos, cols[1..], value)
  }

  /** ... and of every selected position, first to last. */
  function PutRows(g: Grid, e: Edits, first: nat, last: nat, cols: seq<nat>, value: Option<Value>): (r: Option<Edits>)
    requires g.Valid() && Normal(g, e) && AllEditable(g, cols)
    ensures r.Some? ==> Normal(g, r.value) && |r.value.inserted| == |e.inserted|
    ensures r.None? <==> first <= last && cols != [] && last >= Positions(g, e)
    decreases last + 1 - first
  {
    if first > last then Some(e)
    else
      var put := PutCols(g, e, first, cols, value);
      if put.None? then None else PutRows(g, put.value, first + 1, last, cols, value)
  }

  /** The original rows at the selected positions. */
  function SelectedRows(g: Grid, first: nat, last: nat): set<nat>
    requires g.Valid()
  {
    set pos | first <= pos <= last && pos < |g.rows| :: g.order[pos]
  }

  /** Remove the new rows at positions `first..=last`, highest first. */
  function RemoveNew(inserted: seq<seq<Option<Value>>>, first: nat, last: nat): seq<seq<Option<Value>>>
    decreases last + 1 - first
  {
    if first > last then inserted
    else
      var less := if last < |inserted| then inserted[..last] + inserted[last + 1..] else inserted;
      if last == 0 then less else RemoveNew(less, first, last - 1)
  }

  /** The new rows that are not at `first..=last`, in order. */
  function KeptNew(inserted: seq<seq<Option<Value>>>, first: nat, last: nat, i: nat): seq<seq<Option<Value>>>
    decreases |inserted| - i
  {
    if i >= |inserted| then []
    else (if first <= i <= last then [] else [inserted[i]]) + KeptNew(inserted, first, last, i + 1)
  }

  lemma {:induction false} KeptNewAbove(inserted: seq<seq<Option<Value>>>, first: nat, last: nat, i: nat)
    requires last < i <= |inserted|
    ensures KeptNew(inserted, first, last, i) == inserted[i..]
    decreases |inserted| - i
  {
    if i < |inserted| {
      KeptNewAbove(inserted, first, last, i + 1);
    }
  }

  lemma {:induction false} KeptNewInside(inserted: seq<seq<Option<Value>>>, first: nat, last: nat, i: nat)
    requires first <= i <= last + 1
    ensures KeptNew(inserted, first, last, i) == if last < |inserted| then inserted[last + 1..] else []
    decreases last + 1 - i
  {
    if i == last + 1 {
      if i <= |inserted| { KeptNewAbove(inserted, first, last, i); }
    } else if i < |inserted| {
      KeptNewInside(inserted, first, last, i + 1);
    }
  }

  lemma {:induction false} KeptNewBelow(inserted: seq<seq<Option<Value>>>, first: nat, last: nat, i: nat)
    requires i <= first <= last && i <= |inserted|
    ensures KeptNew(inserted, first, last, i) ==
            if first < |inserted| then inserted[i..first] + KeptNew(inserted, first, last, first) else inserted[i..]
    decreases first - i
  {
    if i == |inserted| {
      assert inserted[i..] == [];
    } else {
      hide *;
      if i == first {
        assert inserted[i..first] == [];
      } else {
        KeptNewStep(inserted, first, last, i);
        KeptNewBelow(inserted, first, last, i + 1);
        if first < |inserted| {
          SliceStep(inserted, i, first);
          ConcatAssoc([inserted[i]], inserted[i + 1..first], KeptNew(inserted, first, last, first));
        } else {
          SliceStep(inserted, i, |inserted|);
        }
      }
    }
  }

  lemma KeptNewStep(inserted: seq<seq<Option<Value>>>, first: nat, last: nat, i: nat)
    requires i < first && i < |inserted|
    ensures KeptNew(inserted, first, last, i) == [inserted[i]] + KeptNew(inserted, first, last, i + 1)
  {
  }

  lemma SliceStep<T>(xs: seq<T>, i: nat, j: nat)
    requires i < j <= |xs|
    ensures xs[i..j] == [xs[i]] + xs[i + 1..j]
    ensures j == |xs| ==> xs[i..j] == xs[i..] && xs[i + 1..j] == xs[i + 1..]
  {
  }

  lemma {:induction false} RemoveNewIs(inserted: seq<seq<Option<Value>>>, first: nat, last: nat)
    requires first <= last
    ensures RemoveNew(inserted, first, last) ==
            (if first < |inserted| then inserted[..first] else inserted) +
            (if last < |inserted| then inserted[last + 1..] else [])
    decreases last - first
  {
    var less := if last < |inserted| then inserted[..last] + inserted[last + 1..] else inserted;
    if first < last {
      RemoveNewIs(less, first, last - 1);
      if last < |inserted| {
        assert less[..first] == inserted[..first] && less[last..] == inserted[last + 1..];
      }
    } else {
      assert last > 0 ==> RemoveNew(less, first, last - 1) == less;
    }
  }

  /** Removing highest first is filtering by index: no removal moves a row
      that is still to be removed. */
  lemma RemovingIsFiltering(inserted: seq<seq<Option<Value>>>, first: nat, last: nat)
    requires first <= last
    ensures RemoveNew(inserted, first, last) == KeptNew(inserted, first, last, 0)
  {
    RemoveNewIs(inserted, first, last);
    KeptNewBelow(inserted, first, last, 0);
    KeptNewInside(inserted, first, last, first);
    hide KeptNew;
    hide RemoveNew;
    assert inserted[0..] == inserted;
  }

  /** What the user can do to the buffer. Positions and columns are those of
      the grid at that moment; selections are rectangles of them. */
  datatype Action =
    | OpenEditor(pos: nat, col: nat)
    | CommitEditor(text: string)
    | CancelEditor
    | SetNull(sel: Tsv.Selection)
    | SetDefault(sel: Tsv.Selection)
    | DeleteRows(sel: Tsv.Selection)
    | RestoreRows(sel: Tsv.Selection)
    | DeleteButton(sel: Tsv.Selection)
    | AddRow
    | Revert

  function SelectedCols(g: Grid, sel: Tsv.Selection): seq<nat> {
    EditableCols(g, sel.FirstCol(), sel.LastCol())
  }

  /** The inline editor opens on an editable cell of a row not marked deleted;
      otherwise the cell is only viewed. Either way its text is looked up. */
  function Open(g: Grid, e: Edits, pos: nat, col: nat): Option<Edits>
    requires g.Valid()
  {
    if pos >= Positions(g, e) then None
    else if g.Editable(col) && !(RowAt(g, pos).Existing? && RowAt(g, pos).row in e.deleted) then
      Some(e.(editing := Some((pos, col))))
    else Some(e)
  }

  /** The new rows at the selected positions are gone. */
  function WithoutNew(g: Grid, inserted: seq<seq<Option<Value>>>, sel: Tsv.Selection): seq<seq<Option<Value>>> {
    if sel.LastRow() < |g.rows| then inserted
    else RemoveNew(inserted, if sel.FirstRow() < |g.rows| then 0 else sel.FirstRow() - |g.rows|, sel.LastRow() - |g.rows|)
  }

  /** A new row, every column at its default. */
  function EmptyRow(g: Grid): seq<Option<Value>> {
    seq(|g.target|, _ => None)
  }

  /** One action. `None`: the program indexes past the new rows and stops. */
  function Act(g: Grid, e: Edits, a: Action): Option<Edits>
    requires g.Valid() && Normal(g, e)
  {
    match a
    case OpenEditor(pos, col) => Open(g, e, pos, col)
    case CommitEditor(text) =>
      if e.editing.None? then Some(e)
      else PutCell(g, e.(editing := None), e.editing.value.0, e.editing.value.1, Some(Some(text)))
    case CancelEditor => Some(e.(editing := None))
    case SetNull(sel) =>
      EditableColsAre(g, sel.FirstCol(), sel.LastCol());
      PutRows(g, e, sel.FirstRow(), sel.LastRow(), SelectedCols(g, sel), Some(None))
    case SetDefault(sel) =>
      EditableColsAre(g, sel.FirstCol(), sel.LastCol());
      PutRows(g, e, sel.FirstRow(), sel.LastRow(), SelectedCols(g, sel), None)
    case DeleteRows(sel) =>
      Some(e.(deleted := e.deleted + SelectedRows(g, sel.FirstRow(), sel.LastRow()),
              inserted := WithoutNew(g, e.inserted, sel)))
    case RestoreRows(sel) => Some(e.(deleted := e.deleted - SelectedRows(g, sel.FirstRow(), sel.LastRow())))
    case DeleteButton(sel) => Some(e.(deleted := e.deleted + SelectedRows(g, sel.FirstRow(), sel.LastRow())))
    case AddRow => Some(e.(inserted := e.inserted + [EmptyRow(g)]))
    case Revert => Some(NoEdits)
  }

  /** The positions an action refers to are there. */
  predicate InRange(g: Grid, e: Edits, a: Action) {
    match a
    case OpenEditor(pos, _) => pos < Positions(g, e)
    case CommitEditor(_) => e.editing.None? || e.editing.value.0 < Positions(g, e)
    case SetNull(sel) => SelectedCols(g, sel) == [] || sel.LastRow() < Positions(g, e)
    case SetDefault(sel) => SelectedCols(g, sel) == [] || sel.LastRow() < Positions(g, e)
    case _ => true
  }

  /** An action goes through exactly when its positions are there. */
  lemma ActsIffInRange(g: Grid, e: Edits, a: Action)
    requires g.Valid() && Normal(g, e)
    ensures Act(g, e, a).Some? <==> InRange(g, e, a)
  {
    if a.SetNull? || a.SetDefault? {
      EditableColsAre(g, a.sel.FirstCol(), a.sel.LastCol());
    }
  }

  lemma RemoveNewKeepsFit(g: Grid, inserted: seq<seq<Option<Value>>>, first: nat, last: nat)
    requires first <= last && forall i :: 0 <= i < |inserted| ==> NewRowFits(g, inserted[i])
    ensures forall i :: 0 <= i < |RemoveNew(inserted, first, last)| ==> NewRowFits(g, RemoveNew(inserted, first, last)[i])
  {
    RemoveNewIs(inserted, first, last);
    hide NewRowFits;
  }

  /** Every action keeps the buffer in normal form. */
  lemma ActKeepsNormal(g: Grid, e: Edits, a: Action)
    requires g.Valid() && Normal(g, e) && Act(g, e, a).Some?
    ensures Normal(g, Act(g, e, a).value)
  {
    match a
    case CommitEditor(text) =>
      if e.editing.Some? {
        PutCellKeepsNormal(g, e.(editing := None), e.editing.value.0, e.editing.value.1, Some(Some(text)));
      }
    case SetNull(sel) => EditableColsAre(g, sel.FirstCol(), sel.LastCol());
    case SetDefault(sel) => EditableColsAre(g, sel.FirstCol(), sel.LastCol());
    case DeleteRows(sel) =>
      if sel.LastRow() >= |g.rows| {
        RemoveNewKeepsFit(g, e.inserted, if sel.FirstRow() < |g.rows| then 0 else sel.FirstRow() - |g.rows|,
                          sel.LastRow() - |g.rows|);
      }
    case _ =>
  }

  /** Any sequence of actions, as long as they all go through. */
  function ActAll(g: Grid, e: Edits, actions: seq<Action>): (r: Option<Edits>)
    requires g.Valid() && Normal(g, e)
    ensures r.Some? ==> Normal(g, r.value)
    decreases |actions|
  {
    if actions == [] then Some(e)
    else
      var next := Act(g, e, actions[0]);
      if next.None? then None
      else
        ActKeepsNormal(g, e, actions[0]);
        ActAll(g, next.value, actions[1..])
  }

  lemma ActAllStep(g: Grid, e: Edits, a: Action, rest: seq<Action>)
    requires g.Valid() && Normal(g, e)
    ensures Act(g, e, a).None? ==> ActAll(g, e, [a] + rest) == None
    ensures Act(g, e, a).Some? ==> Normal(g, Act(g, e, a).value) && ActAll(g, e, [a] + rest) == ActAll(g, Act(g, e, a).value, rest)
  {
    if Act(g, e, a).Some? { ActKeepsNormal(g, e, a); }
    hide Act;
    assert ([a] + rest)[1..] == rest;
  }

  /** `n` new rows and nothing else. */
  function OnlyNew(g: Grid, n: nat): Edits {
    NoEdits.(inserted := seq(n, _ => EmptyRow(g)))
  }

  lemma AddsRow(g: Grid, n: nat)
    requires g.Valid()
    ensures Normal(g, OnlyNew(g, n)) && Act(g, OnlyNew(g, n), AddRow) == Some(OnlyNew(g, n + 1))
  {
    var e := OnlyNew(g, n);
    assert e.inserted + [EmptyRow(g)] == OnlyNew(g, n + 1).inserted;
  }

  lemma RemovesNew(g: Grid, n: nat, sel: Tsv.Selection)
    requires g.Valid() && n > 0 && sel.FirstRow() == |g.rows| && sel.LastRow() == |g.rows| + n - 1
    ensures Act(g, OnlyNew(g, n), DeleteRows(sel)) == Some(NoEdits)
  {
    var e := OnlyNew(g, n);
    RemoveNewIs(e.inserted, 0, n - 1);
    assert e.inserted[..0] == [] && e.inserted[n..] == [];
    assert e.deleted + SelectedRows(g, sel.FirstRow(), sel.LastRow()) == {};
    assert |e.inserted| == n && WithoutNew(g, e.inserted, sel) == [];
    hide RemoveNew;
    hide WithoutNew;
  }

  /** A selection outlives the rows it selects: add two rows, select and delete
      them, add a row again and set the selection to NULL. The first selected
      row is on display again, the second is not: the program stops there. */
  lemma StaleSelectionStops(g: Grid, sel: Tsv.Selection)
    requires g.Valid() && sel.FirstRow() == |g.rows| && sel.LastRow() == |g.rows| + 1 && SelectedCols(g, sel) != []
    ensures var actions := [AddRow, AddRow, DeleteRows(sel), AddRow];
            ActAll(g, NoEdits, actions) == Some(OnlyNew(g, 1)) &&
            sel.FirstRow() < Positions(g, OnlyNew(g, 1)) &&
            ActAll(g, NoEdits, actions + [SetNull(sel)]) == None
  {
    var (none, one, two) := (NoEdits, OnlyNew(g, 1), OnlyNew(g, 2));
    assert none == OnlyNew(g, 0);
    AddsRow(g, 0);
    AddsRow(g, 1);
    RemovesNew(g, 2, sel);
    var last := [SetNull(sel)];
    ActsIffInRange(g, one, SetNull(sel));
    assert Positions(g, one) == |g.rows| + 1;
    hide Act;
    hide Normal;
    hide OnlyNew;
    Chained(g, none, one, two, sel, []);
    Chained(g, none, one, two, sel, last);
    ActAllStep(g, one, SetNull(sel), []);
    assert last + [] == last;
    assert [AddRow, AddRow, DeleteRows(sel), AddRow] + [] == [AddRow, AddRow, DeleteRows(sel), AddRow];
  }

  lemma Chained(g: Grid, none: Edits, one: Edits, two: Edits, sel: Tsv.Selection, rest: seq<Action>)
    requires g.Valid() && Normal(g, none) && Normal(g, one) && Normal(g, two)
    requires Act(g, none, AddRow) == Some(one) && Act(g, one, AddRow) == Some(two)
    requires Act(g, two, DeleteRows(sel)) == Some(none)
    ensures ActAll(g, none, [AddRow, AddRow, DeleteRows(sel), AddRow] + rest) == ActAll(g, one, rest)
  {
    hide Act;
    hide ActAll;
    hide Normal;
    ActAllStep(g, none, AddRow, rest);
    ActAllStep(g, two, DeleteRows(sel), [AddRow] + rest);
    ActAllStep(g, one, AddRow, [DeleteRows(sel)] + ([AddRow] + rest));
    ActAllStep(g, none, AddRow, [AddRow] + ([DeleteRows(sel)] + ([AddRow] + rest)));
    assert [AddRow, AddRow, DeleteRows(sel), AddRow] + rest ==
           [AddRow] + ([AddRow] + ([DeleteRows(sel)] + ([AddRow] + rest)));
  }

  /** The same with a single row and F2, which opens the focused cell. */
  lemma StaleFocusStops(g: Grid, sel: Tsv.Selection)
    requires g.Valid() && sel.FirstRow() == sel.LastRow() == |g.rows| == sel.focus.0
    ensures ActAll(g, NoEdits, [AddRow, DeleteRows(sel)]) == Some(NoEdits)
    ensures ActAll(g, NoEdits, [AddRow, DeleteRows(sel), OpenEditor(sel.focus.0, sel.focus.1)]) == None
  {
    var open := [OpenEditor(sel.focus.0, sel.focus.1)];
    assert NoEdits == OnlyNew(g, 0);
    AddsRow(g, 0);
    AddsRow(g, 1);
    RemovesNew(g, 1, sel);
    ActsIffInRange(g, NoEdits, open[0]);
    hide Act;
    hide Normal;
    ActAllStep(g, NoEdits, open[0], []);
    ActAllStep(g, OnlyNew(g, 1), DeleteRows(sel), []);
    ActAllStep(g, OnlyNew(g, 1), DeleteRows(sel), open);
    ActAllStep(g, NoEdits, AddRow, [DeleteRows(sel)] + []);
    ActAllStep(g, NoEdits, AddRow, [DeleteRows(sel)] + open);
    assert open + [] == open && [DeleteRows(sel)] + [] == [DeleteRows(sel)];
    assert [AddRow] + [DeleteRows(sel)] == [AddRow, DeleteRows(sel)];
    assert [AddRow] + ([DeleteRows(sel)] + open) == [AddRow, DeleteRows(sel)] + open;
    assert [AddRow, DeleteRows(sel)] + open == [AddRow, DeleteRows(sel), open[0]];
  }

  /** A view has one original row at each position. */
  ghost predicate OrderFits(g: Grid, order: seq<nat>) {
    |order| == |g.rows| && forall i :: 0 <= i < |order| ==> order[i] < |g.rows|
  }

  /** The same rows in another order on screen. */
  function Resorted(g: Grid, order: seq<nat>): Grid {
    g.(order := order)
  }

  /** The buffer knows original rows only: no order on screen matters to it. */
  lemma SortingKeepsBuffer(g: Grid, e: Edits, order: seq<nat>)
    requires g.Valid() && OrderFits(g, order)
    ensures var h := Resorted(g, order);
            h.Valid() && (Normal(h, e) <==> Normal(g, e)) &&
            forall r: nat, c: nat :: r < |g.rows| && c < |g.target| ==> CellShows(h, e, r, c) == CellShows(g, e, r, c)
  {
    var h := Resorted(g, order);
    assert forall r: nat, cells: map<nat, Value> :: r < |g.rows| ==> (RealChange(h, r, cells) <==> RealChange(g, r, cells)) by {
      forall r: nat, cells: map<nat, Value> | r < |g.rows| ensures RealChange(h, r, cells) <==> RealChange(g, r, cells) {
        assert forall c :: h.Editable(c) <==> g.Editable(c);
      }
    }
    assert forall row :: NewRowFits(h, row) <==> NewRowFits(g, row) by {
      assert forall c :: h.Editable(c) <==> g.Editable(c);
    }
  }

  /** Editing and sorting in any order. */
  datatype Gesture = Edit(action: Action) | Sort(order: seq<nat>)

  ghost function Gestures(g: Grid, e: Edits, gs: seq<Gesture>): (r: Option<(Grid, Edits)>)
    requires g.Valid() && Normal(g, e)
    ensures r.Some? ==>
      (r.value.0.Valid() && Normal(r.value.0, r.value.1) && r.value.0 == Resorted(g, r.value.0.order))
    decreases |gs|
  {
    if gs == [] then Some((g, e))
    else match gs[0]
      case Edit(a) =>
        var next := Act(g, e, a);
        if next.None? then None
        else
          ActKeepsNormal(g, e, a);
          Gestures(g, next.value, gs[1..])
      case Sort(order) =>
        if !OrderFits(g, order) then Gestures(g, e, gs[1..])
        else
          SortingKeepsBuffer(g, e, order);
          Gestures(Resorted(g, order), e, gs[1..])
  }

  /** The text typed into the inline editor goes to the row shown where the
      editor is: to the row it was opened on, whatever the text, exactly if
      that row is still shown there. */
  lemma CommitAfterSortIff(g: Grid, e: Edits, order: seq<nat>)
    requires g.Valid() && Normal(g, e) && OrderFits(g, order) && e.editing.Some? && e.editing.value.0 < |g.rows|
    requires Resorted(g, order).Valid() && Normal(Resorted(g, order), e)
    ensures (forall text :: Act(Resorted(g, order), e, CommitEditor(text)) == Act(g, e, CommitEditor(text))) <==>
            order[e.editing.value.0] == g.order[e.editing.value.0]
  {
    var (pos, col) := e.editing.value;
    var (h, e', r, r') := (Resorted(g, order), e.(editing := None), g.order[pos], order[pos]);
    assert h.Editable(col) && g.Editable(col) && col < |g.target|;
    if r == r' {
      forall text ensures Act(h, e, CommitEditor(text)) == Act(g, e, CommitEditor(text)) {
        assert SetCell(h, e', r, col, Some(text)) == SetCell(g, e', r, col, Some(text));
      }
    } else {
      var text := NewText(CellShows(g, e', r', col));
      SetCellShows(g, e', r, col, Some(text), r', col);
      SetCellShows(h, e', r', col, Some(text), r', col);
      assert CellShows(h, SetCell(h, e', r', col, Some(text)), r', col) ==
             CellShows(g, SetCell(h, e', r', col, Some(text)), r', col);
      assert Act(h, e, CommitEditor(text)) == Some(SetCell(h, e', r', col, Some(text)));
      assert Act(g, e, CommitEditor(text)) == Some(SetCell(g, e', r, col, Some(text)));
    }
  }

  /** A text other than the one shown. */
  function NewText(shown: Value): (text: string)
    ensures Some(text) != shown
  {
    if shown == Some("a") then "b" else "a"
  }
}

/** The buffer as an object whose actions change it in place. */
module EditBuffer {
  import opened Prelude
  import opened ColumnSpec
  import opened EditSpec
  import Tsv

  lemma PutThenRemove<V>(m: map<nat, V>, k: nat, v: V)
    ensures m[k := v] - {k} == m - {k}
  {
  }

  class EditState {
    const grid: Grid
    var changes: map<nat, map<nat, Value>>
    var deleted: set<nat>
    var inserted: seq<seq<Option<Value>>>
    var editing: Option<(nat, nat)>

    ghost predicate Valid()
      reads this
    {
      grid.Valid() && Normal(grid, View())
    }

    ghost function View(): Edits
      reads this
    {
      Edits(changes, deleted, inserted, editing)
    }

    constructor (grid: Grid)
      requires grid.Valid()
      ensures Valid() && View() == NoEdits && this.grid == grid
    {
      this.grid, changes, deleted, inserted, editing := grid, map[], {}, [], None;
    }

    /** Record a new value for a cell of an original row. */
    method Set(row: nat, col: nat, value: Value)
      requires Valid() && row < |grid.rows| && grid.Editable(col)
      modifies this`changes
      ensures Valid() && View() == SetCell(grid, old(View()), row, col, value)
    {
      SetCellKeepsNormal(grid, View(), row, col, value);
      hide Normal;
      var same := value == grid.rows[row][col];
      var entry := if row in changes then changes[row] else map[];
      if same {
        entry := entry - {col};
      } else {
        entry := entry[col := value];
      }
      PutThenRemove(changes, row, entry);
      changes := changes[row := entry];
      if entry == map[] {
        changes := changes - {row};
      }
    }

    /** Put a value into the cell shown at a position; false when there is no
        such position. */
    method Put(pos: nat, col: nat, value: Option<Value>) returns (fine: bool)
      requires Valid() && grid.Editable(col)
      modifies this`changes, this`inserted
      ensures Valid() && PutCell(grid, old(View()), pos, col, value) == if fine then Some(View()) else None
      ensures !fine ==> View() == old(View())
    {
      if PutCell(grid, View(), pos, col, value).Some? {
        PutCellKeepsNormal(grid, View(), pos, col, value);
      }
      fine := true;
      if pos < |grid.rows| {
        if value.Some? { Set(grid.order[pos], col, value.value); }
      } else {
        var i := pos - |grid.rows|;
        if i >= |inserted| { return false; }
        inserted := inserted[i := inserted[i][col := value]];
      }
    }

    /** SetNull and SetDefault: every selected editable cell, row by row. */
    method PutSelected(sel: Tsv.Selection, value: Option<Value>) returns (fine: bool)
      requires Valid()
      modifies this`changes, this`inserted
      ensures Valid()
      ensures AllEditable(grid, SelectedCols(grid, sel))
      ensures PutRows(grid, old(View()), sel.FirstRow(), sel.LastRow(), SelectedCols(grid, sel), value) ==
              if fine then Some(View()) else None
    {
      EditableColsAre(grid, sel.FirstCol(), sel.LastCol());
      var cols := SelectedCols(grid, sel);
      var pos := sel.FirstRow();
      ghost var goal := PutRows(grid, View(), sel.FirstRow(), sel.LastRow(), cols, value);
      while pos <= sel.LastRow()
        invariant Valid() && AllEditable(grid, cols)
        invariant goal == PutRows(grid, View(), pos, sel.LastRow(), cols, value)
        decreases sel.LastRow() + 1 - pos
      {
        hide Normal;
        fine := PutColumns(pos, cols, value);
        if !fine { return; }
        pos := pos + 1;
      }
      fine := true;
    }

    /** The selected editable columns of one row. */
    method PutColumns(pos: nat, cols: seq<nat>, value: Option<Value>) returns (fine: bool)
      requires Valid() && AllEditable(grid, cols)
      modifies this`changes, this`inserted
      ensures Valid()
      ensures PutCols(grid, old(View()), pos, cols, value) == if fine then Some(View()) else None
    {
      var k := 0;
      ghost var goal := PutCols(grid, View(), pos, cols, value);
      assert cols[0..] == cols;
      while k < |cols|
        invariant k <= |cols| && Valid() && AllEditable(grid, cols) && AllEditable(grid, cols[k..])
        invariant goal == PutCols(grid, View(), pos, cols[k..], value)
      {
        hide Normal;
        assert cols[k..][1..] == cols[k + 1..];
        fine := Put(pos, cols[k], value);
        if !fine { return; }
        k := k + 1;
      }
      fine := true;
    }

    /** Mark the selected original rows deleted; remove the selected new ones,
        highest first. */
    method Delete(sel: Tsv.Selection)
      requires Valid()
      modifies this`deleted, this`inserted
      ensures Valid() && Act(grid, old(View()), DeleteRows(sel)) == Some(View())
    {
      ActKeepsNormal(grid, View(), DeleteRows(sel));
      hide Normal;
      deleted := deleted + SelectedRows(grid, sel.FirstRow(), sel.LastRow());
      ghost var marked := deleted;
      if sel.LastRow() >= |grid.rows| {
        var first := if sel.FirstRow() < |grid.rows| then 0 else sel.FirstRow() - |grid.rows|;
        var i := sel.LastRow() - |grid.rows| + 1;
        ghost var goal := RemoveNew(inserted, first, i - 1);
        while i > first
          invariant first <= i && deleted == marked
          invariant goal == if i == 0 then inserted else RemoveNew(inserted, first, i - 1)
        {
          i := i - 1;
          if i < |inserted| {
            inserted := inserted[..i] + inserted[i + 1..];
          }
        }
      }
    }

    /** One user action; false when the program would stop at an index that
        is out of range. */
    method Do(a: Action) returns (fine: bool)
      requires Valid()
      modifies this
      ensures fine ==> Valid() && Act(grid, old(View()), a) == Some(View())
      ensures !fine ==> Act(grid, old(View()), a) == None && !InRange(grid, old(View()), a)
    {
      ActsIffInRange(grid, View(), a);
      if Act(grid, View(), a).Some? { ActKeepsNormal(grid, View(), a); }
      hide Normal;
      fine := true;
      match a {
        case OpenEditor(pos, col) =>
          if pos >= |grid.rows| + |inserted| { return false; }
          if grid.Editable(col) && (pos >= |grid.rows| || grid.order[pos] !in deleted) {
            editing := Some((pos, col));
          }
        case CommitEditor(text) =>
          if editing.Some? { fine := Commit(text); }
        case CancelEditor => editing := None;
        case SetNull(sel) => fine := PutSelected(sel, Some(None));
        case SetDefault(sel) => fine := PutSelected(sel, None);
        case DeleteRows(sel) => Delete(sel);
        case RestoreRows(sel) => deleted := deleted - SelectedRows(grid, sel.FirstRow(), sel.LastRow());
        case DeleteButton(sel) => deleted := deleted + SelectedRows(grid, sel.FirstRow(), sel.LastRow());
        case AddRow => inserted := inserted + [EmptyRow(grid)];
        case Revert =>
          changes, deleted, inserted := map[], {}, [];
          editing := None;
      }
    }

    /** Finish the inline edit with `text`. */
    method Commit(text: string) returns (fine: bool)
      requires Valid() && editing.Some?
      modifies this
      ensures Act(grid, old(View()), CommitEditor(text)) == if fine then Some(View()) else None
      ensures fine ==> Valid()
    {
      var (pos, col) := editing.value;
      editing := None;
      fine := Put(pos, col, Some(Some(text)));
    }
  }
}
