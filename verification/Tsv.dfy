/** Copying a selection as tab-separated text: `selection_tsv_capped` in
    crates/sqail-ui/src/results.rs. */
module Tsv {
  import opened Prelude
  import opened ResultSpec
  import opened Results
  import opened Texts
  import StableSort

  /** Selected cells: an anchor and a focus corner, as display positions. */
  datatype Selection = Selection(anchor: (nat, nat), focus: (nat, nat)) {
    function FirstRow(): nat { if anchor.0 < focus.0 then anchor.0 else focus.0 }
    function LastRow(): nat { if anchor.0 < focus.0 then focus.0 else anchor.0 }
    function FirstCol(): nat { if anchor.1 < focus.1 then anchor.1 else focus.1 }
    function LastCol(): nat { if anchor.1 < focus.1 then focus.1 else anchor.1 }
  }

  /** The numbers `from..=to` that are below `bound`. */
  function Within(from: nat, to: nat, bound: nat): seq<nat>
    decreases bound - from
  {
    if from > to || from >= bound then [] else [from] + Within(from + 1, to, bound)
  }

  lemma {:induction false} WithinIs(from: nat, to: nat, bound: nat)
    ensures forall i :: 0 <= i < |Within(from, to, bound)| ==> Within(from, to, bound)[i] == from + i < bound
    ensures |Within(from, to, bound)| == if from > to || from >= bound then 0
                                         else (if to < bound then to + 1 else bound) - from
    decreases bound - from
  {
    if from <= to && from < bound {
      WithinIs(from + 1, to, bound);
      var rest := Within(from + 1, to, bound);
      var all := Within(from, to, bound);
      assert all == [from] + rest;
      assert |rest| == (if to < bound then to + 1 else bound) - (from + 1);
      forall i | 0 <= i < |all| ensures all[i] == from + i < bound {
        if i > 0 { assert all[i] == rest[i - 1] == from + 1 + (i - 1); }
      }
    } else {
      assert Within(from, to, bound) == [];
    }
  }

  function SelectedRows(sel: Selection, len: nat): seq<nat> {
    Within(sel.FirstRow(), sel.LastRow(), len)
  }

  function SelectedCols(sel: Selection, width: nat): seq<nat> {
    Within(sel.FirstCol(), sel.LastCol(), width)
  }

  /** Tabs and line breaks become spaces. */
  function Flattened(s: string): string {
    seq(|s|, i requires 0 <= i < |s| => if s[i] == '\t' || s[i] == '\n' || s[i] == '\r' then ' ' else s[i])
  }

  /** The text of one exported cell; NULL is empty. */
  function CellText(show: (nat, Cell) -> string, col: nat, c: Cell): string {
    if c.Null? then "" else Flattened(show(col, c))
  }

  /** The sorted view, if there is one, has one valid entry per row. */
  ghost predicate ViewFits(t: Table) {
    t.Valid() &&
    (t.order.None? || (|t.order.value| == |t.rows| && forall i :: 0 <= i < |t.rows| ==> t.order.value[i] < |t.rows|))
  }

  /** A permutation of the rows fits. */
  lemma PermutationFits(t: Table)
    requires t.Valid() && (t.order.Some? ==> OnePerRow(t.order.value, |t.rows|))
    ensures ViewFits(t)
  {
    if t.order.Some? {
      forall i | 0 <= i < |t.rows| ensures t.order.value[i] < |t.rows| {
        assert t.order.value[i] in multiset(t.order.value);
        assert t.order.value[i] in multiset(StableSort.Positions(|t.rows|));
        assert t.order.value[i] in StableSort.Positions(|t.rows|);
        PositionsBelow(|t.rows|);
      }
    }
  }

  lemma {:induction false} PositionsBelow(n: nat)
    ensures forall x :: x in StableSort.Positions(n) ==> x < n
  {
    if n > 0 {
      PositionsBelow(n - 1);
    }
  }

  /** The texts of row `pos` in display order. */
  function RowTexts(show: (nat, Cell) -> string, t: Table, cols: seq<nat>, pos: nat): seq<string>
    requires ViewFits(t) && pos < |t.rows| && forall i :: 0 <= i < |cols| ==> cols[i] < |t.columns|
  {
    var row := t.rows[RowIndex(t, pos)];
    seq(|cols|, i requires 0 <= i < |cols| => CellText(show, cols[i], row[cols[i]]))
  }

  /** The selected cells as a matrix of texts, in display order. */
  function Matrix(show: (nat, Cell) -> string, t: Table, cols: seq<nat>, rows: seq<nat>): seq<seq<string>>
    requires ViewFits(t) && (forall i :: 0 <= i < |cols| ==> cols[i] < |t.columns|)
    requires forall i :: 0 <= i < |rows| ==> rows[i] < |t.rows|
  {
    seq(|rows|, i requires 0 <= i < |rows| => RowTexts(show, t, cols, rows[i]))
  }

  /** One line per row, its cells separated by tabs. */
  function Lines(matrix: seq<seq<string>>): string {
    if matrix == [] then "" else Join("\t", matrix[0]) + "\n" + Lines(matrix[1..])
  }

  /** The matrix read back: the last line break ends the last row. */
  function ReadBack(text: string): seq<seq<string>> {
    var lines := SplitOn('\n', text);
    seq(|lines| - 1, i requires 0 <= i < |lines| - 1 => SplitOn('\t', lines[i]))
  }

  ghost predicate Clean(s: string) {
    '\t' !in s && '\n' !in s
  }

  lemma {:induction false} JoinHasNoBreak(parts: seq<string>)
    requires forall i :: 0 <= i < |parts| ==> Clean(parts[i])
    ensures '\n' !in Join("\t", parts)
  {
    if |parts| > 1 {
      JoinHasNoBreak(parts[1..]);
    }
  }

  ghost predicate CleanMatrix(matrix: seq<seq<string>>) {
    forall r :: 0 <= r < |matrix| ==> CleanRow(matrix[r])
  }

  ghost predicate CleanRow(row: seq<string>) {
    row != [] && forall c :: 0 <= c < |row| ==> Clean(row[c])
  }

  lemma {:induction false} SplitLines(matrix: seq<seq<string>>)
    requires CleanMatrix(matrix)
    ensures SplitOn('\n', Lines(matrix)) ==
            seq(|matrix|, i requires 0 <= i < |matrix| => Join("\t", matrix[i])) + [""]
  {
    hide Join;
    if matrix == [] {
      SplitWhole('\n', "");
    } else {
      hide SplitOn;
      assert CleanRow(matrix[0]);
      JoinHasNoBreak(matrix[0]);
      var rest := Lines(matrix[1..]);
      SplitWhole('\n', Join("\t", matrix[0]));
      SplitAt('\n', Join("\t", matrix[0]), rest);
      assert Lines(matrix) == Join("\t", matrix[0]) + ['\n'] + rest;
      SplitLines(matrix[1..]);
    }
  }

  /** A clean matrix with at least one column is read back exactly. */
  lemma LinesReadBack(matrix: seq<seq<string>>)
    requires CleanMatrix(matrix)
    ensures ReadBack(Lines(matrix)) == matrix
  {
    SplitLines(matrix);
    forall i | 0 <= i < |matrix| ensures SplitOn('\t', Join("\t", matrix[i])) == matrix[i] {
      assert CleanRow(matrix[i]);
      assert forall c :: 0 <= c < |matrix[i]| ==> Clean(matrix[i][c]);
      SplitJoin('\t', matrix[i]);
    }
  }

  /** Exported cells are clean whatever they display. */
  lemma MatrixIsClean(show: (nat, Cell) -> string, t: Table, cols: seq<nat>, rows: seq<nat>)
    requires ViewFits(t) && cols != [] && forall i :: 0 <= i < |cols| ==> cols[i] < |t.columns|
    requires forall i :: 0 <= i < |rows| ==> rows[i] < |t.rows|
    ensures CleanMatrix(Matrix(show, t, cols, rows))
  {
  }

  /** Reading an export back yields the selected cells, row by row. */
  lemma ExportReadsBack(show: (nat, Cell) -> string, t: Table, cols: seq<nat>, rows: seq<nat>)
    requires ViewFits(t) && cols != [] && forall i :: 0 <= i < |cols| ==> cols[i] < |t.columns|
    requires forall i :: 0 <= i < |rows| ==> rows[i] < |t.rows|
    ensures ReadBack(Lines(Matrix(show, t, cols, rows))) == Matrix(show, t, cols, rows)
  {
    MatrixIsClean(show, t, cols, rows);
    LinesReadBack(Matrix(show, t, cols, rows));
  }

  lemma {:induction false} LinesAppend(a: seq<seq<string>>, row: seq<string>)
    ensures Lines(a + [row]) == Lines(a) + Join("\t", row) + "\n"
  {
    if a == [] {
      assert a + [row] == [row];
      assert [row][1..] == [];
    } else {
      assert (a + [row])[1..] == a[1..] + [row];
      LinesAppend(a[1..], row);
    }
  }

  /** The first `n` of the selected rows. */
  function FirstRows(rows: seq<nat>, n: nat): seq<nat> {
    if |rows| > n then rows[..n] else rows
  }

  /** The text of the first `n` selected rows. */
  ghost function TextUpTo(show: (nat, Cell) -> string, t: Table, cols: seq<nat>, rows: seq<nat>, n: nat): string
    requires ViewFits(t) && n <= |rows| && forall i :: 0 <= i < |cols| ==> cols[i] < |t.columns|
    requires forall i :: 0 <= i < |rows| ==> rows[i] < |t.rows|
  {
    Lines(Matrix(show, t, cols, rows[..n]))
  }

  lemma OneMoreRow(show: (nat, Cell) -> string, t: Table, cols: seq<nat>, rows: seq<nat>, n: nat)
    requires ViewFits(t) && n < |rows| && forall i :: 0 <= i < |cols| ==> cols[i] < |t.columns|
    requires forall i :: 0 <= i < |rows| ==> rows[i] < |t.rows|
    ensures TextUpTo(show, t, cols, rows, n + 1) ==
            TextUpTo(show, t, cols, rows, n) + Join("\t", RowTexts(show, t, cols, rows[n])) + "\n"
  {
    var a := Matrix(show, t, cols, rows[..n]);
    assert Matrix(show, t, cols, rows[..n + 1]) == a + [RowTexts(show, t, cols, rows[n])];
    LinesAppend(a, RowTexts(show, t, cols, rows[n]));
  }

  /** At most `maxRows` selected rows as tab-separated lines, after a header
      line if asked for, and whether more rows were selected. */
  method SelectionTsvCapped(rs: ResultSet, show: (nat, Cell) -> string, sel: Selection, headers: bool, maxRows: nat)
    returns (out: string, truncated: bool)
    requires rs.Valid() && ViewFits(rs.View())
    ensures truncated <==> |SelectedRows(sel, rs.len)| > maxRows
    ensures SelectedBounds(sel, rs.len, |rs.columns|)
    ensures var cols := SelectedCols(sel, |rs.columns|);
            out == (if headers then HeaderLine(rs.columns, cols) else "") +
                   Lines(Matrix(show, rs.View(), cols, FirstRows(SelectedRows(sel, rs.len), maxRows)))
  {
    SelectedInside(sel, rs.len, |rs.columns|);
    var cols := SelectedCols(sel, |rs.columns|);
    var rows := SelectedRows(sel, rs.len);
    out := if headers then HeaderLine(rs.columns, cols) else "";
    var body;
    body, truncated := ExportRows(rs, show, cols, rows, maxRows);
    out := out + body;
  }

  /** Row after row, until the rows or the limit run out. */
  method ExportRows(rs: ResultSet, show: (nat, Cell) -> string, cols: seq<nat>, rows: seq<nat>, maxRows: nat)
    returns (out: string, truncated: bool)
    requires rs.Valid() && ViewFits(rs.View())
    requires forall i :: 0 <= i < |cols| ==> cols[i] < |rs.columns|
    requires forall i :: 0 <= i < |rows| ==> rows[i] < rs.len
    ensures truncated <==> |rows| > maxRows
    ensures out == Lines(Matrix(show, rs.View(), cols, FirstRows(rows, maxRows)))
  {
    ghost var t := rs.View();
    out, truncated := "", false;
    var k := 0;
    while k < |rows|
      invariant k <= |rows| && k <= maxRows
      invariant out == TextUpTo(show, t, cols, rows, k)
    {
      if k == maxRows {
        truncated := true;
        break;
      }
      hide Lines;
      hide Matrix;
      hide Join;
      hide RowTexts;
      OneMoreRow(show, t, cols, rows, k);
      var texts := ExportRow(rs, show, cols, rows[k]);
      out := out + Join("\t", texts) + "\n";
      k := k + 1;
    }
    assert rows[..k] == FirstRows(rows, maxRows);
  }

  /** The selected rows and columns are those from corner to corner, whichever
      was clicked first, that exist. */
  lemma SelectionIsRectangle(sel: Selection, len: nat, x: nat)
    ensures x in SelectedRows(sel, len) <==>
            x < len && (sel.anchor.0 <= x <= sel.focus.0 || sel.focus.0 <= x <= sel.anchor.0)
    ensures x in SelectedCols(sel, len) <==>
            x < len && (sel.anchor.1 <= x <= sel.focus.1 || sel.focus.1 <= x <= sel.anchor.1)
  {
    WithinHas(sel.FirstRow(), sel.LastRow(), len, x);
    WithinHas(sel.FirstCol(), sel.LastCol(), len, x);
  }

  lemma WithinHas(from: nat, to: nat, bound: nat, x: nat)
    ensures x in Within(from, to, bound) <==> from <= x <= to && x < bound
  {
    WithinIs(from, to, bound);
    var xs := Within(from, to, bound);
    hide Within;
    if from <= x <= to && x < bound {
      assert xs[x - from] == x;
    }
    if x in xs {
      var i :| 0 <= i < |xs| && xs[i] == x;
    }
  }

  /** What an exported cell says: nothing for NULL, and otherwise the text on
      screen with a blank for each tab and line break. */
  lemma ExportedCellIs(show: (nat, Cell) -> string, col: nat, c: Cell)
    ensures c.Null? ==> CellText(show, col, c) == ""
    ensures var (text, shown) := (CellText(show, col, c), show(col, c));
            !c.Null? ==>
              |text| == |shown| &&
              forall i :: 0 <= i < |shown| ==>
                text[i] == if shown[i] == '\t' || shown[i] == '\n' || shown[i] == '\r' then ' ' else shown[i]
  {
  }

  /** The names of the selected columns. */
  function Titles(columns: seq<string>, cols: seq<nat>): seq<string>
    requires forall i :: 0 <= i < |cols| ==> cols[i] < |columns|
  {
    seq(|cols|, i requires 0 <= i < |cols| => columns[cols[i]])
  }

  /** With a header, the first row read back is the names of the columns, if
      they hold no tab and no line break; the rows follow it. */
  lemma HeaderReadsBack(columns: seq<string>, cols: seq<nat>, matrix: seq<seq<string>>)
    requires cols != [] && (forall i :: 0 <= i < |cols| ==> cols[i] < |columns| && Clean(columns[cols[i]]))
    requires CleanMatrix(matrix)
    ensures ReadBack(HeaderLine(columns, cols) + Lines(matrix)) == [Titles(columns, cols)] + matrix
  {
    var all := [Titles(columns, cols)] + matrix;
    assert CleanRow(Titles(columns, cols));
    assert CleanMatrix(all);
    assert all[1..] == matrix;
    assert Lines(all) == HeaderLine(columns, cols) + Lines(matrix);
    hide ReadBack;
    LinesReadBack(all);
  }

  lemma SelectedInside(sel: Selection, len: nat, width: nat)
    ensures SelectedBounds(sel, len, width)
  {
    WithinIs(sel.FirstRow(), sel.LastRow(), len);
    WithinIs(sel.FirstCol(), sel.LastCol(), width);
  }

  /** Selected positions are inside the grid. */
  ghost predicate SelectedBounds(sel: Selection, len: nat, width: nat) {
    (forall i :: 0 <= i < |SelectedRows(sel, len)| ==> SelectedRows(sel, len)[i] < len) &&
    (forall i :: 0 <= i < |SelectedCols(sel, width)| ==> SelectedCols(sel, width)[i] < width)
  }

  function HeaderLine(columns: seq<string>, cols: seq<nat>): string
    requires forall i :: 0 <= i < |cols| ==> cols[i] < |columns|
  {
    Join("\t", seq(|cols|, i requires 0 <= i < |cols| => columns[cols[i]])) + "\n"
  }

  /** The texts of the row displayed at `pos`. */
  method ExportRow(rs: ResultSet, show: (nat, Cell) -> string, cols: seq<nat>, pos: nat) returns (texts: seq<string>)
    requires rs.Valid() && ViewFits(rs.View()) && pos < rs.len
    requires forall i :: 0 <= i < |cols| ==> cols[i] < |rs.columns|
    ensures texts == RowTexts(show, rs.View(), cols, pos)
  {
    var index := if rs.order.None? then pos else rs.order.value[pos];
    var row := RawRow(rs.cells, rs.len, |rs.columns|, index);
    texts := [];
    var k := 0;
    while k < |cols|
      invariant k <= |cols| == |RowTexts(show, rs.View(), cols, pos)|
      invariant texts == RowTexts(show, rs.View(), cols, pos)[..k]
    {
      var cell := row[cols[k]];
      texts := texts + [if cell.Null? then "" else Flattened(show(cols[k], cell))];
      k := k + 1;
    }
  }
}
