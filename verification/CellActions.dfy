/** What each action of the grid does to the rows and cells on screen
    (crates/sqail-ui/src/grid.rs:217-239, 668-674, 1317-1362), whatever order
    the rows are shown in. */
module CellActions {
  import opened Prelude
  import opened ColumnSpec
  import opened EditSpec
  import Tsv

  /** `x` lies from one corner to the other, whichever was clicked first. */
  predicate Between(corner: nat, other: nat, x: nat) {
    corner <= x <= other || other <= x <= corner
  }

  predicate RowSelected(sel: Tsv.Selection, pos: nat) {
    Between(sel.anchor.0, sel.focus.0, pos)
  }

  predicate ColSelected(sel: Tsv.Selection, col: nat) {
    Between(sel.anchor.1, sel.focus.1, col)
  }

  /** Original row `r` is shown at one of the selected positions. */
  ghost predicate ShownSelected(g: Grid, sel: Tsv.Selection, r: nat)
    requires g.Valid()
  {
    exists pos: nat :: pos < |g.rows| && RowSelected(sel, pos) && g.order[pos] == r
  }

  lemma SelectedRowsAre(g: Grid, sel: Tsv.Selection, r: nat)
    requires g.Valid()
    ensures r in SelectedRows(g, sel.FirstRow(), sel.LastRow()) <==> ShownSelected(g, sel, r)
  {
    if ShownSelected(g, sel, r) {
      var pos: nat :| pos < |g.rows| && RowSelected(sel, pos) && g.order[pos] == r;
      assert sel.FirstRow() <= pos <= sel.LastRow();
    }
    if r in SelectedRows(g, sel.FirstRow(), sel.LastRow()) {
      var pos: nat :| sel.FirstRow() <= pos <= sel.LastRow() && pos < |g.rows| && g.order[pos] == r;
      assert RowSelected(sel, pos);
    }
  }

  /** New row `i` is at a selected position, after `base` original ones. */
  predicate NewSelected(sel: Tsv.Selection, base: nat, i: nat) {
    RowSelected(sel, base + i)
  }

  /** The new rows from index `i` on that are not at a selected position;
      new rows are shown after the `base` original ones. */
  function NewUnselected(inserted: seq<seq<Option<Value>>>, base: nat, sel: Tsv.Selection, i: nat): seq<seq<Option<Value>>>
    decreases |inserted| - i
  {
    if i >= |inserted| then []
    else (if NewSelected(sel, base, i) then [] else [inserted[i]]) + NewUnselected(inserted, base, sel, i + 1)
  }

  lemma {:induction false} UnselectedAreKept(inserted: seq<seq<Option<Value>>>, base: nat, sel: Tsv.Selection,
                                             first: nat, last: nat, i: nat)
    requires forall k: nat :: k < |inserted| ==> (NewSelected(sel, base, k) <==> first <= k <= last)
    ensures NewUnselected(inserted, base, sel, i) == KeptNew(inserted, first, last, i)
    decreases |inserted| - i
  {
    if i < |inserted| {
      UnselectedAreKept(inserted, base, sel, first, last, i + 1);
    }
  }

  lemma {:induction false} AllUnselected(inserted: seq<seq<Option<Value>>>, base: nat, sel: Tsv.Selection, i: nat)
    requires i <= |inserted| && forall k: nat :: k < |inserted| ==> !NewSelected(sel, base, k)
    ensures NewUnselected(inserted, base, sel, i) == inserted[i..]
    decreases |inserted| - i
  {
    if i < |inserted| {
      AllUnselected(inserted, base, sel, i + 1);
    }
  }

  lemma WithoutNewIs(g: Grid, inserted: seq<seq<Option<Value>>>, sel: Tsv.Selection)
    ensures WithoutNew(g, inserted, sel) == NewUnselected(inserted, |g.rows|, sel, 0)
  {
    var base := |g.rows|;
    if sel.LastRow() < base {
      AllUnselected(inserted, base, sel, 0);
      assert inserted[0..] == inserted;
    } else {
      var (first, last) := (if sel.FirstRow() < base then 0 else sel.FirstRow() - base, sel.LastRow() - base);
      UnselectedAreKept(inserted, base, sel, first, last, 0);
      RemovingIsFiltering(inserted, first, last);
      hide KeptNew;
      hide RemoveNew;
    }
  }

  /** Deleting marks exactly the original rows shown at selected positions,
      besides those marked before, and drops exactly the selected new rows; the
      button leaves new rows alone. Nothing else changes. */
  lemma DeleteMarksShownRows(g: Grid, e: Edits, sel: Tsv.Selection)
    requires g.Valid() && Normal(g, e)
    ensures Act(g, e, DeleteRows(sel)).Some? && Act(g, e, DeleteButton(sel)).Some?
    ensures var t := Act(g, e, DeleteRows(sel)).value;
            (forall r: nat :: r in t.deleted <==> r in e.deleted || ShownSelected(g, sel, r)) &&
            t.inserted == NewUnselected(e.inserted, |g.rows|, sel, 0) && t.changes == e.changes && t.editing == e.editing
    ensures var t := Act(g, e, DeleteButton(sel)).value;
            (forall r: nat :: r in t.deleted <==> r in e.deleted || ShownSelected(g, sel, r)) &&
            t.inserted == e.inserted && t.changes == e.changes && t.editing == e.editing
  {
    WithoutNewIs(g, e.inserted, sel);
    forall r: nat ensures r in SelectedRows(g, sel.FirstRow(), sel.LastRow()) <==> ShownSelected(g, sel, r) {
      SelectedRowsAre(g, sel, r);
    }
    hide SelectedRows;
    hide ShownSelected;
    hide WithoutNew;
    hide Normal;
  }

  /** Restoring unmarks exactly those rows. */
  lemma RestoreUnmarksShownRows(g: Grid, e: Edits, sel: Tsv.Selection)
    requires g.Valid() && Normal(g, e)
    ensures Act(g, e, RestoreRows(sel)).Some?
    ensures var t := Act(g, e, RestoreRows(sel)).value;
            (forall r: nat :: r in t.deleted <==> r in e.deleted && !ShownSelected(g, sel, r)) &&
            t == e.(deleted := t.deleted)
  {
    forall r: nat ensures r in SelectedRows(g, sel.FirstRow(), sel.LastRow()) <==> ShownSelected(g, sel, r) {
      SelectedRowsAre(g, sel, r);
    }
    hide SelectedRows;
    hide ShownSelected;
    hide Normal;
  }

  /** `t` is `e` with `value` put into the columns `cols` of the positions from
      `first` to `last`: original cells take a value only, not the default. */
  ghost predicate Puts(g: Grid, e: Edits, t: Edits, first: nat, last: nat, cols: seq<nat>, value: Option<Value>)
    requires g.Valid()
  {
    t.deleted == e.deleted && t.editing == e.editing && |t.inserted| == |e.inserted| &&
    (forall r: nat, c: nat :: r < |g.rows| && c < |g.target| ==>
       CellShows(g, t, r, c) ==
       if value.Some? && c in cols && ShownAt(g, first, last, r) then value.value else CellShows(g, e, r, c)) &&
    (forall i: nat :: i < |e.inserted| ==>
       RowPut(e.inserted[i], t.inserted[i], cols, first <= |g.rows| + i <= last, value))
  }

  /** The columns `cols` of a new row were given `value` if the row is meant,
      and nothing else was. */
  ghost predicate RowPut(before: seq<Option<Value>>, after: seq<Option<Value>>, cols: seq<nat>, meant: bool, value: Option<Value>) {
    |after| == |before| &&
    forall c: nat :: c < |before| ==> after[c] == if meant && c in cols then value else before[c]
  }

  lemma RowPutTwice(a: seq<Option<Value>>, b: seq<Option<Value>>, c: seq<Option<Value>>, col: nat, cols: seq<nat>,
                    meant: bool, value: Option<Value>)
    requires RowPut(a, b, [col], meant, value) && RowPut(b, c, cols, meant, value)
    ensures RowPut(a, c, [col] + cols, meant, value)
  {
  }

  lemma RowPutOnce(a: seq<Option<Value>>, b: seq<Option<Value>>, c: seq<Option<Value>>, cols: seq<nat>,
                   first: bool, second: bool, value: Option<Value>)
    requires RowPut(a, b, cols, first, value) && RowPut(b, c, cols, second, value)
    ensures RowPut(a, c, cols, first || second, value)
  {
  }

  ghost predicate ShownAt(g: Grid, first: nat, last: nat, r: nat)
    requires g.Valid()
  {
    exists pos: nat :: first <= pos <= last && pos < |g.rows| && g.order[pos] == r
  }

  lemma PutCellPuts(g: Grid, e: Edits, pos: nat, col: nat, value: Option<Value>)
    requires g.Valid() && Normal(g, e) && g.Editable(col) && PutCell(g, e, pos, col, value).Some?
    ensures Puts(g, e, PutCell(g, e, pos, col, value).value, pos, pos, [col], value)
  {
    var t := PutCell(g, e, pos, col, value).value;
    forall r: nat | r < |g.rows| ensures ShownAt(g, pos, pos, r) <==> pos < |g.rows| && g.order[pos] == r {
    }
    if pos < |g.rows| && value.Some? {
      forall r: nat, c: nat | r < |g.rows| && c < |g.target|
        ensures CellShows(g, t, r, c) == if c == col && r == g.order[pos] then value.value else CellShows(g, e, r, c)
      {
        SetCellShows(g, e, g.order[pos], col, value.value, r, c);
      }
    }
    hide CellShows;
    hide ShownAt;
    hide Normal;
  }

  lemma PutsMore(g: Grid, e: Edits, m: Edits, t: Edits, pos: nat, col: nat, cols: seq<nat>, value: Option<Value>)
    requires g.Valid() && Puts(g, e, m, pos, pos, [col], value) && Puts(g, m, t, pos, pos, cols, value)
    ensures Puts(g, e, t, pos, pos, [col] + cols, value)
  {
    hide CellShows;
    hide ShownAt;
    forall r: nat, c: nat | r < |g.rows| && c < |g.target|
      ensures CellShows(g, t, r, c) ==
              if value.Some? && c in [col] + cols && ShownAt(g, pos, pos, r) then value.value else CellShows(g, e, r, c)
    {
      assert CellShows(g, m, r, c) ==
             if value.Some? && c in [col] && ShownAt(g, pos, pos, r) then value.value else CellShows(g, e, r, c);
    }
    forall i: nat | i < |e.inserted| ensures RowPut(e.inserted[i], t.inserted[i], [col] + cols, pos <= |g.rows| + i <= pos, value) {
      RowPutTwice(e.inserted[i], m.inserted[i], t.inserted[i], col, cols, pos <= |g.rows| + i <= pos, value);
    }
    hide RowPut;
  }

  lemma PutsNothing(g: Grid, e: Edits, first: nat, last: nat, value: Option<Value>)
    requires g.Valid()
    ensures Puts(g, e, e, first, last, [], value)
  {
  }

  lemma {:induction false} PutColsPuts(g: Grid, e: Edits, pos: nat, cols: seq<nat>, value: Option<Value>)
    requires g.Valid() && Normal(g, e) && AllEditable(g, cols) && PutCols(g, e, pos, cols, value).Some?
    ensures Puts(g, e, PutCols(g, e, pos, cols, value).value, pos, pos, cols, value)
    decreases |cols|
  {
    if cols == [] {
      PutsNothing(g, e, pos, pos, value);
    } else {
      PutCellPuts(g, e, pos, cols[0], value);
      PutCellKeepsNormal(g, e, pos, cols[0], value);
      var m := PutCell(g, e, pos, cols[0], value).value;
      hide PutCell;
      hide Normal;
      hide Puts;
      PutColsPuts(g, m, pos, cols[1..], value);
      assert cols == [cols[0]] + cols[1..];
      PutsMore(g, e, m, PutCols(g, e, pos, cols, value).value, pos, cols[0], cols[1..], value);
    }
  }

  lemma PutsNextRow(g: Grid, e: Edits, m: Edits, t: Edits, first: nat, last: nat, cols: seq<nat>, value: Option<Value>)
    requires g.Valid() && first <= last
    requires Puts(g, e, m, first, first, cols, value) && Puts(g, m, t, first + 1, last, cols, value)
    ensures Puts(g, e, t, first, last, cols, value)
  {
    forall r: nat ensures ShownAt(g, first, last, r) <==> ShownAt(g, first, first, r) || ShownAt(g, first + 1, last, r) {
      if ShownAt(g, first, last, r) {
        var pos: nat :| first <= pos <= last && pos < |g.rows| && g.order[pos] == r;
        assert pos == first || first + 1 <= pos;
      }
    }
    hide CellShows;
    hide ShownAt;
    forall i: nat | i < |e.inserted| ensures RowPut(e.inserted[i], t.inserted[i], cols, first <= |g.rows| + i <= last, value) {
      RowPutOnce(e.inserted[i], m.inserted[i], t.inserted[i], cols, first <= |g.rows| + i <= first,
                 first + 1 <= |g.rows| + i <= last, value);
    }
    hide RowPut;
  }

  lemma NoRowsShown(g: Grid, e: Edits, first: nat, last: nat, cols: seq<nat>, value: Option<Value>)
    requires g.Valid() && first > last
    ensures Puts(g, e, e, first, last, cols, value)
  {
  }

  lemma {:induction false} PutRowsPuts(g: Grid, e: Edits, first: nat, last: nat, cols: seq<nat>, value: Option<Value>)
    requires g.Valid() && Normal(g, e) && AllEditable(g, cols) && PutRows(g, e, first, last, cols, value).Some?
    ensures Puts(g, e, PutRows(g, e, first, last, cols, value).value, first, last, cols, value)
    decreases last + 1 - first
  {
    if first > last {
      NoRowsShown(g, e, first, last, cols, value);
    } else {
      PutColsPuts(g, e, first, cols, value);
      var m := PutCols(g, e, first, cols, value).value;
      hide PutCols;
      hide Normal;
      hide Puts;
      PutRowsPuts(g, m, first + 1, last, cols, value);
      PutsNextRow(g, e, m, PutRows(g, e, first, last, cols, value).value, first, last, cols, value);
    }
  }

  lemma {:induction false} EditableColsIff(g: Grid, first: nat, last: nat, c: nat)
    ensures c in EditableCols(g, first, last) <==> first <= c <= last && g.Editable(c)
    decreases |g.target| - first
  {
    if first <= last && first < |g.target| {
      EditableColsIff(g, first + 1, last, c);
    }
  }

  /** The cell is selected and can be edited. */
  predicate Settable(g: Grid, sel: Tsv.Selection, col: nat) {
    ColSelected(sel, col) && g.Editable(col)
  }

  /** The settable cells of a new row took `value` if the row is selected, and
      no other cell changed. */
  ghost predicate NewRowSet(g: Grid, sel: Tsv.Selection, before: seq<Option<Value>>, after: seq<Option<Value>>,
                            selected: bool, value: Option<Value>) {
    |after| == |before| &&
    forall c: nat :: c < |before| ==> after[c] == if selected && Settable(g, sel, c) then value else before[c]
  }

  /** Set NULL and Set DEFAULT reach exactly the selected editable cells: in
      original rows NULL replaces what was shown and DEFAULT changes nothing;
      new rows take NULL or the default. No other cell, mark or row changes. */
  lemma SettingReachesSelectedCells(g: Grid, e: Edits, sel: Tsv.Selection, a: Action)
    requires g.Valid() && Normal(g, e) && (a == SetNull(sel) || a == SetDefault(sel)) && Act(g, e, a).Some?
    ensures var t := Act(g, e, a).value;
            t.deleted == e.deleted && t.editing == e.editing && |t.inserted| == |e.inserted| &&
            (forall r: nat, c: nat :: r < |g.rows| && c < |g.target| ==>
               CellShows(g, t, r, c) ==
               if a.SetNull? && Settable(g, sel, c) && ShownSelected(g, sel, r) then None else CellShows(g, e, r, c)) &&
            forall i: nat :: i < |e.inserted| ==>
              NewRowSet(g, sel, e.inserted[i], t.inserted[i], NewSelected(sel, |g.rows|, i), if a.SetNull? then Some(None) else None)
  {
    var value: Option<Value> := if a.SetNull? then Some(None) else None;
    var cols := SelectedCols(g, sel);
    EditableColsAre(g, sel.FirstCol(), sel.LastCol());
    PutRowsPuts(g, e, sel.FirstRow(), sel.LastRow(), cols, value);
    forall c: nat ensures c in cols <==> Settable(g, sel, c) {
      EditableColsIff(g, sel.FirstCol(), sel.LastCol(), c);
    }
    forall r: nat ensures ShownAt(g, sel.FirstRow(), sel.LastRow(), r) <==> ShownSelected(g, sel, r) {
      SameRows(g, sel, r);
    }
    assert forall i: nat :: NewSelected(sel, |g.rows|, i) <==> sel.FirstRow() <= |g.rows| + i <= sel.LastRow();
    hide CellShows;
    hide ShownAt;
    hide ShownSelected;
    hide Settable;
    hide NewSelected;
    hide Normal;
    hide PutRows;
    hide SelectedCols;
  }

  lemma SameRows(g: Grid, sel: Tsv.Selection, r: nat)
    requires g.Valid()
    ensures ShownAt(g, sel.FirstRow(), sel.LastRow(), r) <==> ShownSelected(g, sel, r)
  {
    if ShownSelected(g, sel, r) {
      var pos: nat :| pos < |g.rows| && RowSelected(sel, pos) && g.order[pos] == r;
      assert sel.FirstRow() <= pos <= sel.LastRow();
    }
    if ShownAt(g, sel.FirstRow(), sel.LastRow(), r) {
      var pos: nat :| sel.FirstRow() <= pos <= sel.LastRow() && pos < |g.rows| && g.order[pos] == r;
      assert RowSelected(sel, pos);
    }
  }

  /** The text of the inline editor goes into the one cell shown where it is
      open, and the editor is closed. */
  lemma CommitReachesItsCell(g: Grid, e: Edits, text: string)
    requires g.Valid() && Normal(g, e) && e.editing.Some? && Act(g, e, CommitEditor(text)).Some?
    ensures var ((pos, col), t) := (e.editing.value, Act(g, e, CommitEditor(text)).value);
            t.deleted == e.deleted && t.editing == None && |t.inserted| == |e.inserted| &&
            (forall r: nat, c: nat :: r < |g.rows| && c < |g.target| ==>
               CellShows(g, t, r, c) ==
               if c == col && pos < |g.rows| && g.order[pos] == r then Some(text) else CellShows(g, e, r, c)) &&
            forall i: nat :: i < |e.inserted| ==>
              if pos == |g.rows| + i then col < |e.inserted[i]| && t.inserted[i] == e.inserted[i][col := Some(Some(text))]
              else t.inserted[i] == e.inserted[i]
  {
    var (pos, col) := e.editing.value;
    var closed := e.(editing := None);
    PutCellPuts(g, closed, pos, col, Some(Some(text)));
    forall r: nat ensures ShownAt(g, pos, pos, r) <==> pos < |g.rows| && g.order[pos] == r {
    }
    assert forall r: nat, c: nat :: r < |g.rows| && c < |g.target| ==> CellShows(g, closed, r, c) == CellShows(g, e, r, c);
    hide CellShows;
    hide ShownAt;
    hide Normal;
    hide PutCell;
  }

  /** The editor opens on a cell that can be edited, of a new row or of an
      original row that is not marked deleted; on any other cell it stays as
      it was. */
  lemma EditorOpensIff(g: Grid, e: Edits, pos: nat, col: nat)
    requires g.Valid() && Normal(g, e) && pos < |g.rows| + |e.inserted| && e.editing == None
    ensures Act(g, e, OpenEditor(pos, col)).Some?
    ensures var t := Act(g, e, OpenEditor(pos, col)).value;
            t == e.(editing := t.editing) && (t.editing.Some? ==> t.editing == Some((pos, col))) &&
            (t.editing.Some? <==> g.Editable(col) && forall r :: r in e.deleted ==> !(pos < |g.rows| && g.order[pos] == r))
  {
    hide Normal;
  }

  /** A new row shows its defaults; reverting forgets everything. */
  lemma NewRowsAndRevert(g: Grid, e: Edits)
    requires g.Valid() && Normal(g, e)
    ensures var t := Act(g, e, AddRow);
            t.Some? && t.value == e.(inserted := t.value.inserted) && |t.value.inserted| == |e.inserted| + 1 &&
            t.value.inserted[..|e.inserted|] == e.inserted && |t.value.inserted[|e.inserted|]| == |g.target| &&
            forall c :: 0 <= c < |g.target| ==> t.value.inserted[|e.inserted|][c] == None
    ensures var t := Act(g, e, Revert);
            t.Some? && t.value.changes == map[] && t.value.deleted == {} && t.value.inserted == [] && t.value.editing == None
  {
    hide Normal;
  }
}
