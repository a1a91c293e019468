/** From pending edits to parameterised statements
    (`EditState::{key,statements}` in crates/sqail-ui/src/editing.rs). */
module StatementSpec {
  import opened Prelude
  import opened ColumnSpec
  import opened EditSpec

  datatype Param = NullParam | TextParam(text: string)

  /** `column = placeholder n`, or a column and its placeholder in an INSERT. */
  datatype Bound = Bound(col: ColumnInfo, n: nat)

  datatype Statement =
    | Delete(key: seq<Bound>, params: seq<Param>)
    | Update(sets: seq<Bound>, key: seq<Bound>, params: seq<Param>)
    | Insert(cols: seq<Bound>, params: seq<Param>)

  /** The members of `s` below `n`, in ascending order: how a BTreeMap or
      BTreeSet is walked. */
  function Ascending(s: set<nat>, n: nat): seq<nat> {
    if n == 0 then [] else Ascending(s, n - 1) + if n - 1 in s then [n - 1] else []
  }

  ghost predicate Increasing(xs: seq<nat>) {
    forall a, b :: 0 <= a < b < |xs| ==> xs[a] < xs[b]
  }

  lemma {:induction false} AscendingIs(s: set<nat>, n: nat)
    ensures Increasing(Ascending(s, n))
    ensures forall x :: x in Ascending(s, n) <==> x in s && x < n
  {
    if n > 0 {
      AscendingIs(s, n - 1);
      var front := Ascending(s, n - 1);
      assert forall i :: 0 <= i < |front| ==> front[i] in front;
    }
  }

  lemma {:induction false} AscendingCount(s: set<nat>, n: nat)
    requires forall x :: x in s ==> x < n
    ensures |Ascending(s, n)| == |s|
    decreases n
  {
    if n == 0 {
      assert s == {};
    } else {
      var rest := s - {n - 1};
      AscendingCount(rest, n - 1);
      AscendingSame(s, rest, n - 1);
    }
  }

  lemma {:induction false} AscendingSame(a: set<nat>, b: set<nat>, n: nat)
    requires forall x :: x < n ==> (x in a <==> x in b)
    ensures Ascending(a, n) == Ascending(b, n)
  {
    if n > 0 {
      AscendingSame(a, b, n - 1);
    }
  }

  /** The key columns are editable columns of the grid. */
  ghost predicate KeyFits(g: Grid) {
    g.pk != [] && forall k :: 0 <= k < |g.pk| ==> g.Editable(g.pk[k])
  }

  function Col(g: Grid, c: nat): ColumnInfo
    requires g.Editable(c)
  {
    g.target[c].value
  }

  /** The text a key cell is matched by: what the grid displays. */
  function KeyText(v: Value): string {
    if v.None? then "NULL" else v.value
  }

  function ValueParam(v: Value): Param {
    if v.None? then NullParam else TextParam(v.value)
  }

  /** `key`: the key columns with the placeholders after number `n`. */
  function KeyBounds(g: Grid, n: nat): seq<Bound>
    requires KeyFits(g)
  {
    seq(|g.pk|, k requires 0 <= k < |g.pk| => Bound(Col(g, g.pk[k]), n + k + 1))
  }

  /** ... and the original key of the row as parameters. */
  function KeyParams(g: Grid, row: nat): seq<Param>
    requires g.Valid() && KeyFits(g) && row < |g.rows|
  {
    seq(|g.pk|, k requires 0 <= k < |g.pk| => TextParam(KeyText(g.rows[row][g.pk[k]])))
  }

  function DeleteOf(g: Grid, row: nat): Statement
    requires g.Valid() && KeyFits(g) && row < |g.rows|
  {
    Delete(KeyBounds(g, 0), KeyParams(g, row))
  }

  ghost predicate ColumnsFit(g: Grid, cells: map<nat, Value>) {
    forall c :: c in cells ==> g.Editable(c)
  }

  function SetBounds(g: Grid, cols: seq<nat>): seq<Bound>
    requires AllEditable(g, cols)
  {
    seq(|cols|, k requires 0 <= k < |cols| => Bound(Col(g, cols[k]), k + 1))
  }

  lemma ColsOf(g: Grid, s: set<nat>)
    requires forall c :: c in s ==> g.Editable(c)
    ensures AllEditable(g, Ascending(s, |g.target|))
  {
    AscendingIs(s, |g.target|);
    var cols := Ascending(s, |g.target|);
    forall i | 0 <= i < |cols| ensures g.Editable(cols[i]) {
      assert cols[i] in cols;
    }
  }

  function CellParams(cells: map<nat, Value>, cols: seq<nat>): seq<Param>
    requires forall i :: 0 <= i < |cols| ==> cols[i] in cells
  {
    seq(|cols|, k requires 0 <= k < |cols| => ValueParam(cells[cols[k]]))
  }

  lemma ColsIn(s: set<nat>, n: nat)
    ensures forall i :: 0 <= i < |Ascending(s, n)| ==> Ascending(s, n)[i] in s
  {
    AscendingIs(s, n);
    var cols := Ascending(s, n);
    forall i | 0 <= i < |cols| ensures cols[i] in s {
      assert cols[i] in cols;
    }
  }

  function UpdateOf(g: Grid, row: nat, cells: map<nat, Value>): Statement
    requires g.Valid() && KeyFits(g) && row < |g.rows| && ColumnsFit(g, cells)
  {
    var cols := Ascending(cells.Keys, |g.target|);
    ColsOf(g, cells.Keys);
    ColsIn(cells.Keys, |g.target|);
    Update(SetBounds(g, cols), KeyBounds(g, |cols|), CellParams(cells, cols) + KeyParams(g, row))
  }

  /** The filled-in columns of a new row. */
  function Filled(row: seq<Option<Value>>): map<nat, Value> {
    map c: nat | c < |row| && row[c].Some? :: row[c].value
  }

  function InsertOf(g: Grid, row: seq<Option<Value>>): Statement
    requires NewRowFits(g, row)
  {
    var cells := Filled(row);
    var cols := Ascending(cells.Keys, |g.target|);
    ColsOf(g, cells.Keys);
    ColsIn(cells.Keys, |g.target|);
    Insert(SetBounds(g, cols), CellParams(cells, cols))
  }

  function DeletesOf(g: Grid, rows: seq<nat>): seq<Statement>
    requires g.Valid() && KeyFits(g) && forall i :: 0 <= i < |rows| ==> rows[i] < |g.rows|
  {
    seq(|rows|, i requires 0 <= i < |rows| => DeleteOf(g, rows[i]))
  }

  ghost predicate RowsChanged(g: Grid, e: Edits, rows: seq<nat>) {
    forall i :: 0 <= i < |rows| ==> rows[i] in e.changes && rows[i] < |g.rows| && ColumnsFit(g, e.changes[rows[i]])
  }

  function UpdatesOf(g: Grid, e: Edits, rows: seq<nat>): seq<Statement>
    requires g.Valid() && KeyFits(g) && RowsChanged(g, e, rows)
  {
    seq(|rows|, i requires 0 <= i < |rows| => UpdateOf(g, rows[i], e.changes[rows[i]]))
  }

  function InsertsOf(g: Grid, rows: seq<seq<Option<Value>>>): seq<Statement>
    requires forall i :: 0 <= i < |rows| ==> NewRowFits(g, rows[i])
  {
    seq(|rows|, i requires 0 <= i < |rows| => InsertOf(g, rows[i]))
  }

  /** The original rows to delete, in order. */
  function DeletedRows(g: Grid, e: Edits): seq<nat> {
    Ascending(e.deleted, |g.rows|)
  }

  /** The original rows to update, in order. */
  function ChangedRows(g: Grid, e: Edits): seq<nat> {
    Ascending(e.changes.Keys - e.deleted, |g.rows|)
  }

  ghost predicate Ready(g: Grid, e: Edits) {
    g.Valid() && KeyFits(g) && Normal(g, e)
  }

  lemma RowsFit(g: Grid, e: Edits)
    requires Ready(g, e)
    ensures forall i :: 0 <= i < |DeletedRows(g, e)| ==> DeletedRows(g, e)[i] < |g.rows|
    ensures RowsChanged(g, e, ChangedRows(g, e))
  {
    ColsIn(e.deleted, |g.rows|);
    ColsIn(e.changes.Keys - e.deleted, |g.rows|);
    var rows := ChangedRows(g, e);
    forall i | 0 <= i < |rows| ensures ColumnsFit(g, e.changes[rows[i]]) {
      assert RealChange(g, rows[i], e.changes[rows[i]]);
    }
  }

  /** `statements`: deletes, then updates, then inserts. */
  function Statements(g: Grid, e: Edits): seq<Statement>
    requires Ready(g, e)
  {
    RowsFit(g, e);
    DeletesOf(g, DeletedRows(g, e)) + UpdatesOf(g, e, ChangedRows(g, e)) + InsertsOf(g, e.inserted)
  }

  /** One statement per deleted row, per changed row that stays, and per new
      row. */
  lemma StatementCount(g: Grid, e: Edits)
    requires Ready(g, e)
    ensures |Statements(g, e)| == |e.deleted| + |e.changes.Keys - e.deleted| + |e.inserted|
  {
    RowsFit(g, e);
    AscendingCount(e.deleted, |g.rows|);
    AscendingCount(e.changes.Keys - e.deleted, |g.rows|);
  }

  /** Every placeholder of a statement, in the order it is written. */
  function Placeholders(s: Statement): seq<Bound> {
    match s
    case Delete(key, _) => key
    case Update(sets, key, _) => sets + key
    case Insert(cols, _) => cols
  }

  /** A column of the grid that may be written. */
  ghost predicate OnGrid(g: Grid, col: ColumnInfo) {
    exists c: nat :: g.Editable(c) && col == Col(g, c)
  }

  ghost predicate PlacesFit(g: Grid, ps: seq<Bound>, n: nat) {
    forall k :: 0 <= k < |ps| ==> ps[k].n == n + k + 1 && OnGrid(g, ps[k].col)
  }

  /** Placeholders are numbered 1, 2, .., m with m parameters, on editable
      columns of the grid. */
  ghost predicate Numbered(g: Grid, s: Statement) {
    |Placeholders(s)| == |s.params| && PlacesFit(g, Placeholders(s), 0)
  }

  lemma KeyPlaces(g: Grid, n: nat)
    requires KeyFits(g)
    ensures PlacesFit(g, KeyBounds(g, n), n)
  {
    forall k | 0 <= k < |g.pk| ensures OnGrid(g, KeyBounds(g, n)[k].col) {
      assert g.Editable(g.pk[k]);
    }
  }

  lemma SetPlaces(g: Grid, cols: seq<nat>)
    requires AllEditable(g, cols)
    ensures PlacesFit(g, SetBounds(g, cols), 0)
  {
    forall k | 0 <= k < |cols| ensures OnGrid(g, SetBounds(g, cols)[k].col) {
      assert g.Editable(cols[k]);
    }
  }

  lemma PlacesJoin(g: Grid, a: seq<Bound>, b: seq<Bound>)
    requires PlacesFit(g, a, 0) && PlacesFit(g, b, |a|)
    ensures PlacesFit(g, a + b, 0)
  {
    hide OnGrid;
  }

  lemma DeleteNumbered(g: Grid, row: nat)
    requires g.Valid() && KeyFits(g) && row < |g.rows|
    ensures Numbered(g, DeleteOf(g, row))
  {
    KeyPlaces(g, 0);
    hide PlacesFit;
  }

  lemma UpdateNumbered(g: Grid, row: nat, cells: map<nat, Value>)
    requires g.Valid() && KeyFits(g) && row < |g.rows| && ColumnsFit(g, cells)
    ensures Numbered(g, UpdateOf(g, row, cells))
  {
    var cols := Ascending(cells.Keys, |g.target|);
    ColsOf(g, cells.Keys);
    ColsIn(cells.Keys, |g.target|);
    SetPlaces(g, cols);
    KeyPlaces(g, |cols|);
    PlacesJoin(g, SetBounds(g, cols), KeyBounds(g, |cols|));
    hide PlacesFit;
    hide Ascending;
  }

  lemma InsertNumbered(g: Grid, row: seq<Option<Value>>)
    requires NewRowFits(g, row)
    ensures Numbered(g, InsertOf(g, row))
  {
    var cells := Filled(row);
    ColsOf(g, cells.Keys);
    ColsIn(cells.Keys, |g.target|);
    SetPlaces(g, Ascending(cells.Keys, |g.target|));
    hide PlacesFit;
    hide Ascending;
  }

  ghost predicate AllNumbered(g: Grid, ss: seq<Statement>) {
    forall i :: 0 <= i < |ss| ==> Numbered(g, ss[i])
  }

  lemma DeletesNumbered(g: Grid, rows: seq<nat>)
    requires g.Valid() && KeyFits(g) && forall i :: 0 <= i < |rows| ==> rows[i] < |g.rows|
    ensures AllNumbered(g, DeletesOf(g, rows))
  {
    forall i | 0 <= i < |rows| ensures Numbered(g, DeletesOf(g, rows)[i]) {
      DeleteNumbered(g, rows[i]);
    }
  }

  lemma UpdatesNumbered(g: Grid, e: Edits, rows: seq<nat>)
    requires g.Valid() && KeyFits(g) && RowsChanged(g, e, rows)
    ensures AllNumbered(g, UpdatesOf(g, e, rows))
  {
    hide Numbered;
    forall i | 0 <= i < |rows| ensures Numbered(g, UpdatesOf(g, e, rows)[i]) {
      UpdateNumbered(g, rows[i], e.changes[rows[i]]);
    }
  }

  lemma InsertsNumbered(g: Grid, rows: seq<seq<Option<Value>>>)
    requires forall i :: 0 <= i < |rows| ==> NewRowFits(g, rows[i])
    ensures AllNumbered(g, InsertsOf(g, rows))
  {
    hide Numbered;
    forall i | 0 <= i < |rows| ensures Numbered(g, InsertsOf(g, rows)[i]) {
      InsertNumbered(g, rows[i]);
    }
  }

  /** Every statement numbers its placeholders and touches editable columns
      only. */
  lemma StatementsNumbered(g: Grid, e: Edits)
    requires Ready(g, e)
    ensures AllNumbered(g, Statements(g, e))
  {
    RowsFit(g, e);
    DeletesNumbered(g, DeletedRows(g, e));
    UpdatesNumbered(g, e, ChangedRows(g, e));
    InsertsNumbered(g, e.inserted);
    hide Numbered;
    hide DeletesOf;
    hide UpdatesOf;
    hide InsertsOf;
    hide Normal;
  }
}

/** The generator as written: loops over the buffer's maps and sets. */
module Generator {
  import opened ColumnSpec
  import opened EditSpec
  import opened StatementSpec

  /** The WHERE clause for the original key of a row, numbered after `n`. */
  method Key(g: Grid, row: nat, n: nat) returns (key: seq<Bound>, params: seq<Param>)
    requires g.Valid() && KeyFits(g) && row < |g.rows|
    ensures key == KeyBounds(g, n) && params == KeyParams(g, row)
  {
    key, params := [], [];
    var k := 0;
    while k < |g.pk|
      invariant k <= |g.pk|
      invariant key == KeyBounds(g, n)[..k] && params == KeyParams(g, row)[..k]
    {
      var c := g.pk[k];
      assert g.Editable(c);
      key := key + [Bound(g.target[c].value, n + k + 1)];
      params := params + [TextParam(KeyText(g.rows[row][c]))];
      k := k + 1;
    }
  }

  /** Number the columns of `cells` in order and collect their values. */
  method Assign(g: Grid, cells: map<nat, Value>) returns (sets: seq<Bound>, params: seq<Param>)
    requires ColumnsFit(g, cells)
    ensures var cols := Ascending(cells.Keys, |g.target|);
            AllEditable(g, cols) && (forall i :: 0 <= i < |cols| ==> cols[i] in cells) &&
            sets == SetBounds(g, cols) && params == CellParams(cells, cols)
  {
    ColsOf(g, cells.Keys);
    ColsIn(cells.Keys, |g.target|);
    ghost var cols := Ascending(cells.Keys, |g.target|);
    var n := 0;
    sets, params := [], [];
    for c := 0 to |g.target|
      invariant n == |Ascending(cells.Keys, c)|
      invariant Ascending(cells.Keys, c) <= cols
      invariant sets == SetBounds(g, cols)[..n] && params == CellParams(cells, cols)[..n]
    {
      AscendingPrefix(cells.Keys, c + 1, |g.target|);
      if c in cells {
        n := n + 1;
        sets := sets + [Bound(g.target[c].value, n)];
        params := params + [ValueParam(cells[c])];
      }
    }
  }

  lemma {:induction false} AscendingPrefix(s: set<nat>, m: nat, n: nat)
    requires m <= n
    ensures Ascending(s, m) <= Ascending(s, n)
    decreases n
  {
    if m < n {
      AscendingPrefix(s, m, n - 1);
    }
  }

  method GenerateDeletes(g: Grid, e: Edits) returns (out: seq<Statement>)
    requires Ready(g, e)
    ensures RowsBelow(DeletedRows(g, e), |g.rows|) && out == DeletesOf(g, DeletedRows(g, e))
  {
    RowsFit(g, e);
    ghost var rows := DeletedRows(g, e);
    out := [];
    for r := 0 to |g.rows|
      invariant Ascending(e.deleted, r) <= rows
      invariant |out| == |Ascending(e.deleted, r)| && out == DeletesOf(g, rows)[..|out|]
    {
      AscendingPrefix(e.deleted, r + 1, |g.rows|);
      if r in e.deleted {
        var key, params := Key(g, r, 0);
        out := out + [Delete(key, params)];
      }
    }
  }

  ghost predicate RowsBelow(rows: seq<nat>, n: nat) {
    forall i :: 0 <= i < |rows| ==> rows[i] < n
  }

  method GenerateUpdates(g: Grid, e: Edits) returns (out: seq<Statement>)
    requires Ready(g, e)
    ensures RowsChanged(g, e, ChangedRows(g, e)) && out == UpdatesOf(g, e, ChangedRows(g, e))
  {
    RowsFit(g, e);
    ghost var todo := e.changes.Keys - e.deleted;
    ghost var rows := ChangedRows(g, e);
    out := [];
    for r := 0 to |g.rows|
      invariant Ascending(todo, r) <= rows
      invariant |out| == |Ascending(todo, r)| && out == UpdatesOf(g, e, rows)[..|out|]
    {
      hide Normal;
      hide UpdateOf;
      hide KeyFits;
      AscendingPrefix(todo, r + 1, |g.rows|);
      if r in e.changes && r !in e.deleted {
        assert rows[|out|] == r;
        var update := GenerateUpdate(g, r, e.changes[r]);
        out := out + [update];
      }
    }
  }

  method GenerateUpdate(g: Grid, row: nat, cells: map<nat, Value>) returns (update: Statement)
    requires g.Valid() && KeyFits(g) && row < |g.rows| && ColumnsFit(g, cells)
    ensures update == UpdateOf(g, row, cells)
  {
    var sets, params := Assign(g, cells);
    var key, keyParams := Key(g, row, |sets|);
    update := Update(sets, key, params + keyParams);
  }

  method GenerateInserts(g: Grid, e: Edits) returns (out: seq<Statement>)
    requires Ready(g, e)
    ensures (forall i :: 0 <= i < |e.inserted| ==> NewRowFits(g, e.inserted[i])) && out == InsertsOf(g, e.inserted)
  {
    out := [];
    for i := 0 to |e.inserted|
      invariant out == InsertsOf(g, e.inserted)[..i]
    {
      assert NewRowFits(g, e.inserted[i]);
      var cols, params := Assign(g, Filled(e.inserted[i]));
      out := out + [Insert(cols, params)];
    }
  }

  /** All statements: first the rows to drop, then those to change, then the
      new ones. */
  method Generate(g: Grid, e: Edits) returns (out: seq<Statement>)
    requires Ready(g, e)
    ensures out == Statements(g, e)
  {
    var deletes := GenerateDeletes(g, e);
    var updates := GenerateUpdates(g, e);
    var inserts := GenerateInserts(g, e);
    hide DeletesOf;
    hide UpdatesOf;
    hide InsertsOf;
    hide DeletedRows;
    hide ChangedRows;
    out := deletes + updates + inserts;
  }
}
