/** Running the statements: tables with an enforced primary key, and what the
    edits the user saw mean for them (`apply` in crates/sqail-ui/src/editing.rs). */
module TableSpec {
  import opened Prelude
  import opened ColumnSpec
  import opened EditSpec
  import opened StatementSpec

  /** A database value. */
  datatype Datum = Null | Data(n: int)
  type Row = map<string, Datum>

  /** A table: rows by an identity of their own, and the next free identity. */
  datatype Table = Table(rows: map<nat, Row>, next: nat)

  /** The database: how text becomes a value of a column (or an error), what
      a new row looks like given some of its values, what other constraints
      allow, and the primary key. */
  datatype Database = Database(convert: (ColumnInfo, string) -> Option<Datum>, fill: (Row, Table) -> Row,
                               allows: Table -> bool, keyNames: seq<string>)

  function Field(row: Row, name: string): Datum {
    if name in row then row[name] else Null
  }

  function KeyOf(db: Database, row: Row): seq<Datum> {
    seq(|db.keyNames|, k requires 0 <= k < |db.keyNames| => Field(row, db.keyNames[k]))
  }

  /** No two rows have the same key. */
  predicate UniqueKeys(db: Database, t: Table) {
    forall a, b :: a in t.rows && b in t.rows && a != b ==> KeyOf(db, t.rows[a]) != KeyOf(db, t.rows[b])
  }

  ghost predicate TableOk(db: Database, t: Table) {
    UniqueKeys(db, t) && IdsBelowNext(t)
  }

  /** The value of placeholder `n`. */
  function ParamValue(db: Database, col: ColumnInfo, params: seq<Param>, n: nat): Option<Datum> {
    if n == 0 || n > |params| then None
    else match params[n - 1]
      case NullParam => Some(Null)
      case TextParam(text) => db.convert(col, text)
  }

  /** The values bound to columns, or an error. */
  function Values(db: Database, bounds: seq<Bound>, params: seq<Param>): Option<seq<Datum>> {
    if bounds == [] then Some([])
    else
      var n := |bounds| - 1;
      var front := Values(db, bounds[..n], params);
      var last := ParamValue(db, bounds[n].col, params, bounds[n].n);
      if front.None? || last.None? then None else Some(front.value + [last.value])
  }

  /** `column = value AND ..`: NULL equals nothing. */
  predicate Matches(bounds: seq<Bound>, values: seq<Datum>, row: Row)
    requires |bounds| == |values|
  {
    forall k :: 0 <= k < |bounds| ==> values[k] != Null && Field(row, bounds[k].col.name) == values[k]
  }

  /** A row with columns set. */
  function Assigned(bounds: seq<Bound>, values: seq<Datum>, row: Row): Row
    requires |bounds| == |values|
  {
    if bounds == [] then row
    else
      var n := |bounds| - 1;
      Assigned(bounds[..n], values[..n], row)[bounds[n].col.name := values[n]]
  }

  lemma {:induction false} ValuesLength(db: Database, bounds: seq<Bound>, params: seq<Param>)
    requires Values(db, bounds, params).Some?
    ensures |Values(db, bounds, params).value| == |bounds|
  {
    if bounds != [] {
      ValuesLength(db, bounds[..|bounds| - 1], params);
    }
  }

  function RowsHit(t: Table, bounds: seq<Bound>, values: seq<Datum>): set<nat>
    requires |bounds| == |values|
  {
    set id | id in t.rows && Matches(bounds, values, t.rows[id])
  }

  function Updated(t: Table, hits: set<nat>, sets: seq<Bound>, values: seq<Datum>): Table
    requires |sets| == |values|
  {
    t.(rows := map id | id in t.rows :: if id in hits then Assigned(sets, values, t.rows[id]) else t.rows[id])
  }

  /** The result of one statement: the table and how many rows it touched. */
  datatype Effect = Effect(table: Table, affected: nat)

  /** The database accepts a new table: keys unique, constraints met. */
  predicate Accepts(db: Database, t: Table) {
    UniqueKeys(db, t) && db.allows(t)
  }

  /** Run one statement. `None` is a database error; nothing changes then. */
  function Exec(db: Database, s: Statement, t: Table): Option<Effect> {
    match s
    case Delete(key, params) =>
      var values := Values(db, key, params);
      if values.None? then None
      else
        ValuesLength(db, key, params);
        var hits := RowsHit(t, key, values.value);
        var u := t.(rows := t.rows - hits);
        if Accepts(db, u) then Some(Effect(u, |hits|)) else None
    case Update(sets, key, params) =>
      var values := Values(db, key, params);
      var news := Values(db, sets, params);
      if values.None? || news.None? then None
      else
        ValuesLength(db, key, params);
        ValuesLength(db, sets, params);
        var hits := RowsHit(t, key, values.value);
        var u := Updated(t, hits, sets, news.value);
        if Accepts(db, u) then Some(Effect(u, |hits|)) else None
    case Insert(cols, params) =>
      var news := Values(db, cols, params);
      if news.None? then None
      else
        ValuesLength(db, cols, params);
        var u := t.(rows := t.rows[t.next := db.fill(Assigned(cols, news.value, map[]), t)], next := t.next + 1);
        if Accepts(db, u) then Some(Effect(u, 1)) else None
  }

  /** The guard of `apply`: an UPDATE or DELETE must touch a row. */
  function ExecGuarded(db: Database, s: Statement, t: Table): Option<Table> {
    var r := Exec(db, s, t);
    if r.None? || (r.value.affected == 0 && !s.Insert?) then None else Some(r.value.table)
  }

  /** All statements, one after the other. */
  ghost function ExecAll(db: Database, ss: seq<Statement>, t: Table): Option<Table>
    decreases |ss|
  {
    if ss == [] then Some(t)
    else
      var u := ExecGuarded(db, ss[0], t);
      if u.None? then None else ExecAll(db, ss[1..], u.value)
  }

  lemma {:induction false} ExecAllJoins(db: Database, a: seq<Statement>, b: seq<Statement>, t: Table)
    ensures ExecAll(db, a + b, t) ==
            if ExecAll(db, a, t).None? then None else ExecAll(db, b, ExecAll(db, a, t).value)
    decreases |a|
  {
    if a == [] {
      assert a + b == b;
    } else {
      assert (a + b)[1..] == a[1..] + b;
      var u := ExecGuarded(db, a[0], t);
      if u.Some? { ExecAllJoins(db, a[1..], b, u.value); }
    }
  }

  /** The rows as loaded: `ids[r]` is row `r` of the grid, and as long as the
      table holds it, the displayed key converts back to its (non-null) key. */
  ghost predicate Loaded(db: Database, g: Grid, ids: seq<nat>, t: Table)
    requires g.Valid() && KeyFits(g)
  {
    |ids| == |g.rows| && |db.keyNames| == |g.pk| &&
    (forall a, b :: 0 <= a < b < |ids| ==> ids[a] != ids[b]) &&
    (forall k :: 0 <= k < |g.pk| ==> Col(g, g.pk[k]).name == db.keyNames[k]) &&
    (forall r :: 0 <= r < |ids| && ids[r] in t.rows ==> KeyShown(db, g, r, KeyOf(db, t.rows[ids[r]])))
  }

  /** The same, whatever the key columns of the table are. */
  ghost predicate RowsLoaded(db: Database, g: Grid, ids: seq<nat>, t: Table)
    requires g.Valid() && KeyFits(g)
  {
    |ids| == |g.rows| && (forall a, b :: 0 <= a < b < |ids| ==> ids[a] != ids[b]) &&
    (forall r :: 0 <= r < |ids| && ids[r] in t.rows ==> KeyShown(db, g, r, KeyOf(db, t.rows[ids[r]])))
  }

  lemma LoadedWhen(db: Database, g: Grid, ids: seq<nat>, t: Table)
    requires g.Valid() && KeyFits(g) && RowsLoaded(db, g, ids, t) && |db.keyNames| == |g.pk|
    requires forall k :: 0 <= k < |g.pk| ==> Col(g, g.pk[k]).name == db.keyNames[k]
    ensures Loaded(db, g, ids, t)
  {
  }

  /** The table still holds every row that is to be changed or deleted. */
  ghost predicate TouchedPresent(e: Edits, ids: seq<nat>, t: Table) {
    forall r :: (r in e.deleted || r in e.changes) && r < |ids| ==> ids[r] in t.rows
  }

  /** The key cells of row `r` read as `key`. */
  ghost predicate KeyShown(db: Database, g: Grid, r: nat, key: seq<Datum>)
    requires g.Valid() && KeyFits(g) && r < |g.rows|
  {
    |key| == |g.pk| &&
    forall k :: 0 <= k < |g.pk| ==>
      key[k] != Null && db.convert(Col(g, g.pk[k]), KeyText(g.rows[r][g.pk[k]])) == Some(key[k])
  }

  /** The key parameters of a statement, wherever its placeholders start. */
  ghost predicate KeyParamsAt(g: Grid, r: nat, n: nat, params: seq<Param>)
    requires g.Valid() && KeyFits(g) && r < |g.rows|
  {
    n + |g.pk| <= |params| && params[n..n + |g.pk|] == KeyParams(g, r)
  }

  lemma {:induction false} KeyValues(db: Database, g: Grid, r: nat, n: nat, params: seq<Param>, key: seq<Datum>, m: nat)
    requires g.Valid() && KeyFits(g) && r < |g.rows| && m <= |g.pk|
    requires KeyShown(db, g, r, key) && KeyParamsAt(g, r, n, params)
    ensures Values(db, KeyBounds(g, n)[..m], params) == Some(key[..m])
  {
    var bounds := KeyBounds(g, n);
    if m == 0 {
      assert bounds[..0] == [] && key[..0] == [];
    } else {
      KeyValues(db, g, r, n, params, key, m - 1);
      KeyValueAt(db, g, r, n, params, key, m - 1);
      hide KeyBounds;
      hide KeyParams;
      hide KeyShown;
      hide ParamValue;
      assert bounds[..m][..m - 1] == bounds[..m - 1];
      assert key[..m] == key[..m - 1] + [key[m - 1]];
    }
  }

  lemma KeyValueAt(db: Database, g: Grid, r: nat, n: nat, params: seq<Param>, key: seq<Datum>, k: nat)
    requires g.Valid() && KeyFits(g) && r < |g.rows| && k < |g.pk|
    requires KeyShown(db, g, r, key) && KeyParamsAt(g, r, n, params)
    ensures |KeyBounds(g, n)| == |g.pk| == |key|
    ensures ParamValue(db, KeyBounds(g, n)[k].col, params, KeyBounds(g, n)[k].n) == Some(key[k])
  {
    assert params[n + k] == params[n..n + |g.pk|][k] == KeyParams(g, r)[k];
  }

  /** The WHERE clause of a row matches exactly the rows with its key. */
  lemma KeyMatches(db: Database, g: Grid, n: nat, key: seq<Datum>, row: Row)
    requires g.Valid() && KeyFits(g) && |db.keyNames| == |g.pk| == |key|
    requires forall k :: 0 <= k < |g.pk| ==> Col(g, g.pk[k]).name == db.keyNames[k] && key[k] != Null
    ensures Matches(KeyBounds(g, n), key, row) <==> KeyOf(db, row) == key
  {
    if KeyOf(db, row) == key {
      forall k | 0 <= k < |g.pk| ensures Field(row, KeyBounds(g, n)[k].col.name) == key[k] {
        assert KeyOf(db, row)[k] == key[k];
      }
    }
    if Matches(KeyBounds(g, n), key, row) {
      forall k | 0 <= k < |g.pk| ensures KeyOf(db, row)[k] == key[k] {
        assert Field(row, KeyBounds(g, n)[k].col.name) == key[k];
      }
    }
  }

  /** Row `r` of the grid is still in the table as it was loaded. */
  ghost predicate Present(ids: seq<nat>, t: Table, w: Table, r: nat) {
    r < |ids| && ids[r] in w.rows && ids[r] in t.rows && w.rows[ids[r]] == t.rows[ids[r]]
  }

  /** The WHERE clause made for a row hits that row and no other, however the
      rest of the table has changed, as long as keys are unique. */
  lemma KeyHitsItsRow(db: Database, g: Grid, ids: seq<nat>, t: Table, w: Table, r: nat, n: nat, params: seq<Param>)
    requires g.Valid() && KeyFits(g) && Loaded(db, g, ids, t) && UniqueKeys(db, w) && Present(ids, t, w, r)
    requires KeyParamsAt(g, r, n, params)
    ensures var values := Values(db, KeyBounds(g, n), params);
            values.Some? && |values.value| == |KeyBounds(g, n)| && RowsHit(w, KeyBounds(g, n), values.value) == {ids[r]}
  {
    var key := KeyOf(db, t.rows[ids[r]]);
    var bounds := KeyBounds(g, n);
    assert KeyShown(db, g, r, key);
    KeyValues(db, g, r, n, params, key, |g.pk|);
    assert bounds[..|g.pk|] == bounds && key[..|g.pk|] == key;
    hide KeyBounds;
    hide Values;
    hide KeyParamsAt;
    forall id | id in w.rows ensures Matches(bounds, key, w.rows[id]) <==> id == ids[r] {
      KeyMatches(db, g, n, key, w.rows[id]);
    }
  }

  /** The value a cell is given. */
  function CellValue(db: Database, g: Grid, c: nat, v: Value): Option<Datum>
    requires g.Editable(c)
  {
    if v.None? then Some(Null) else db.convert(Col(g, c), v.value)
  }

  /** `after` is `before` with exactly the given cells replaced. */
  ghost predicate CellsReplaced(db: Database, g: Grid, cells: map<nat, Value>, before: Row, after: Row)
    requires ColumnsFit(g, cells)
  {
    (forall c :: c in cells ==>
       Col(g, c).name in after && CellValue(db, g, c, cells[c]) == Some(after[Col(g, c).name])) &&
    (forall name :: !NamesColumn(g, cells.Keys, name) ==> SameField(before, after, name))
  }

  ghost predicate NamesColumn(g: Grid, cols: set<nat>, name: string)
    requires forall c :: c in cols ==> g.Editable(c)
  {
    exists c :: c in cols && Col(g, c).name == name
  }

  ghost predicate SameField(a: Row, b: Row, name: string) {
    (name in a <==> name in b) && (name in a ==> a[name] == b[name])
  }

  /** No two editable columns of the grid are the same table column. */
  ghost predicate DistinctTargets(g: Grid) {
    forall a: nat, b: nat :: a < b && g.Editable(a) && g.Editable(b) ==> Col(g, a).name != Col(g, b).name
  }

  ghost predicate Placed(db: Database, g: Grid, cells: map<nat, Value>, c: nat, after: Row) {
    c in cells && g.Editable(c) && Col(g, c).name in after &&
    CellValue(db, g, c, cells[c]) == Some(after[Col(g, c).name])
  }

  /** The first `m` columns are replaced and nothing else. */
  ghost predicate PlacedFirst(db: Database, g: Grid, cells: map<nat, Value>, cols: seq<nat>, m: nat, before: Row, after: Row)
    requires m <= |cols| && AllEditable(g, cols)
  {
    (forall i :: 0 <= i < m ==> Placed(db, g, cells, cols[i], after)) &&
    (forall name :: (forall i :: 0 <= i < m ==> Col(g, cols[i]).name != name) ==> SameField(before, after, name))
  }

  lemma PlaceOneMore(db: Database, g: Grid, cells: map<nat, Value>, cols: seq<nat>, m: nat, before: Row, front: Row, v: Datum)
    requires DistinctTargets(g) && Increasing(cols) && AllEditable(g, cols) && m < |cols| && cols[m] in cells
    requires PlacedFirst(db, g, cells, cols, m, before, front) && CellValue(db, g, cols[m], cells[cols[m]]) == Some(v)
    ensures PlacedFirst(db, g, cells, cols, m + 1, before, front[Col(g, cols[m]).name := v])
  {
    var c := cols[m];
    var after := front[Col(g, c).name := v];
    forall i | 0 <= i < m + 1 ensures Placed(db, g, cells, cols[i], after) {
      if i < m {
        assert Placed(db, g, cells, cols[i], front);
        assert Col(g, cols[i]).name != Col(g, c).name;
      }
    }
    forall name | forall i :: 0 <= i < m + 1 ==> Col(g, cols[i]).name != name ensures SameField(before, after, name) {
      assert Col(g, cols[m]).name != name;
      assert SameField(before, front, name);
    }
  }

  /** The values of the first `m` columns, and what assigning them does. */
  lemma {:induction false} AssignReplaces(db: Database, g: Grid, cells: map<nat, Value>, cols: seq<nat>,
                                          more: seq<Param>, before: Row, m: nat)
    requires ColumnsFit(g, cells) && DistinctTargets(g) && Increasing(cols) && AllEditable(g, cols) && m <= |cols|
    requires forall i :: 0 <= i < |cols| ==> cols[i] in cells
    requires Values(db, SetBounds(g, cols)[..m], CellParams(cells, cols) + more).Some?
    ensures var values := Values(db, SetBounds(g, cols)[..m], CellParams(cells, cols) + more).value;
            |values| == m &&
            PlacedFirst(db, g, cells, cols, m, before, Assigned(SetBounds(g, cols)[..m], values, before))
  {
    hide PlacedFirst;
    var params := CellParams(cells, cols) + more;
    var bounds := SetBounds(g, cols);
    ValuesLength(db, bounds[..m], params);
    if m == 0 {
      PlacedNone(db, g, cells, cols, before);
    } else {
      assert bounds[..m][..m - 1] == bounds[..m - 1];
      AssignReplaces(db, g, cells, cols, more, before, m - 1);
      var values := Values(db, bounds[..m], params).value;
      assert values[..m - 1] == Values(db, bounds[..m - 1], params).value;
      var front := Assigned(bounds[..m - 1], values[..m - 1], before);
      assert params[m - 1] == ValueParam(cells[cols[m - 1]]);
      PlaceOneMore(db, g, cells, cols, m - 1, before, front, values[m - 1]);
    }
  }

  lemma PlacedNone(db: Database, g: Grid, cells: map<nat, Value>, cols: seq<nat>, row: Row)
    requires AllEditable(g, cols)
    ensures PlacedFirst(db, g, cells, cols, 0, row, row)
  {
  }

  /** Assigning all changed cells replaces exactly them. */
  lemma AssignReplacesAll(db: Database, g: Grid, cells: map<nat, Value>, more: seq<Param>, before: Row)
    requires ColumnsFit(g, cells) && DistinctTargets(g)
    requires var cols := Ascending(cells.Keys, |g.target|);
             AllEditable(g, cols) && (forall i :: 0 <= i < |cols| ==> cols[i] in cells) &&
             Values(db, SetBounds(g, cols), CellParams(cells, cols) + more).Some?
    ensures var cols := Ascending(cells.Keys, |g.target|);
            var values := Values(db, SetBounds(g, cols), CellParams(cells, cols) + more).value;
            |values| == |cols| && CellsReplaced(db, g, cells, before, Assigned(SetBounds(g, cols), values, before))
  {
    var cols := Ascending(cells.Keys, |g.target|);
    AscendingIs(cells.Keys, |g.target|);
    var bounds := SetBounds(g, cols);
    assert bounds[..|cols|] == bounds;
    AssignReplaces(db, g, cells, cols, more, before, |cols|);
    var values := Values(db, bounds, CellParams(cells, cols) + more).value;
    var after := Assigned(bounds, values, before);
    forall c | c in cells
      ensures Col(g, c).name in after && CellValue(db, g, c, cells[c]) == Some(after[Col(g, c).name])
    {
      assert c in cols;
      var i :| 0 <= i < |cols| && cols[i] == c;
      assert Placed(db, g, cells, cols[i], after);
    }
    forall name | !NamesColumn(g, cells.Keys, name) ensures SameField(before, after, name) {
      forall i | 0 <= i < |cols| ensures Col(g, cols[i]).name != name {
        assert cols[i] in cells.Keys;
      }
    }
  }

  /** What the edits mean for the original rows: deleted ones are gone, the
      changed ones have exactly the changed cells replaced, all others are as
      they were. */
  ghost predicate IsEdited(db: Database, g: Grid, e: Edits, ids: seq<nat>, t: Table, u: Table)
    requires Ready(g, e) && |ids| == |g.rows|
  {
    u.next == t.next &&
    (forall id :: id in u.rows <==> id in t.rows && !IsDeleted(e, ids, id)) &&
    (forall r: nat :: r < |ids| && ids[r] in t.rows && r !in e.deleted ==> RowIsEdited(db, g, e, ids, t, u, r)) &&
    (forall id :: id in t.rows && id !in ids ==> u.rows[id] == t.rows[id])
  }

  ghost predicate IsDeleted(e: Edits, ids: seq<nat>, id: nat) {
    exists r: nat :: r in e.deleted && r < |ids| && ids[r] == id
  }

  ghost predicate RowIsEdited(db: Database, g: Grid, e: Edits, ids: seq<nat>, t: Table, u: Table, r: nat)
    requires Ready(g, e) && r < |ids| == |g.rows| && ids[r] in t.rows
  {
    ids[r] in u.rows &&
    if r in e.changes then
      ChangeFits(g, e, r) && CellsReplaced(db, g, e.changes[r], t.rows[ids[r]], u.rows[ids[r]])
    else u.rows[ids[r]] == t.rows[ids[r]]
  }

  ghost predicate ChangeFits(g: Grid, e: Edits, r: nat) {
    r in e.changes && ColumnsFit(g, e.changes[r])
  }

  /** What the new rows mean: one row each, in order, with the given cells;
      the database fills in the rest. */
  ghost predicate IsExtended(db: Database, g: Grid, news: seq<seq<Option<Value>>>, u: Table, v: Table)
    requires forall i :: 0 <= i < |news| ==> NewRowFits(g, news[i])
    decreases |news|
  {
    if news == [] then v == u
    else
      exists given: Row :: GivenBy(db, g, news[0], given) &&
        IsExtended(db, g, news[1..], u.(rows := u.rows[u.next := db.fill(given, u)], next := u.next + 1), v)
  }

  ghost predicate GivenBy(db: Database, g: Grid, row: seq<Option<Value>>, given: Row)
    requires NewRowFits(g, row)
  {
    CellsReplaced(db, g, Filled(row), map[], given)
  }

  /** Rows still to be processed are present and all different. */
  ghost predicate AllPresent(ids: seq<nat>, t: Table, w: Table, rs: seq<nat>) {
    forall i :: 0 <= i < |rs| ==> Present(ids, t, w, rs[i])
  }

  ghost predicate Hit(ids: seq<nat>, rs: seq<nat>, id: nat) {
    exists i :: 0 <= i < |rs| && rs[i] < |ids| && ids[rs[i]] == id
  }

  /** A DELETE removes its own row and nothing else. */
  lemma DeleteHitsItsRow(db: Database, g: Grid, ids: seq<nat>, t: Table, w: Table, r: nat)
    requires g.Valid() && KeyFits(g) && Loaded(db, g, ids, t) && UniqueKeys(db, w) && Present(ids, t, w, r)
    ensures var u := w.(rows := w.rows - {ids[r]});
            Exec(db, DeleteOf(g, r), w) == if Accepts(db, u) then Some(Effect(u, 1)) else None
  {
    assert KeyParams(g, r)[0..0 + |g.pk|] == KeyParams(g, r);
    KeyHitsItsRow(db, g, ids, t, w, r, 0, KeyParams(g, r));
    hide Accepts;
    hide RowsHit;
    hide Values;
    hide KeyBounds;
    hide KeyParams;
  }

  /** Exactly the rows of `rs` are gone. */
  ghost predicate Removed(ids: seq<nat>, rs: seq<nat>, w: Table, u: Table) {
    u.next == w.next && (forall id :: id in u.rows <==> id in w.rows && !Hit(ids, rs, id)) &&
    (forall id :: id in u.rows ==> u.rows[id] == w.rows[id])
  }

  lemma RemovedNone(ids: seq<nat>, w: Table)
    ensures Removed(ids, [], w, w)
  {
  }

  lemma RemovedCons(ids: seq<nat>, rs: seq<nat>, w: Table, u: Table)
    requires rs != [] && rs[0] < |ids| && Removed(ids, rs[1..], w.(rows := w.rows - {ids[rs[0]]}), u)
    ensures Removed(ids, rs, w, u)
  {
    HitFirst(ids, rs);
    hide Hit;
  }

  /** The first of several DELETEs. */
  lemma FirstDelete(db: Database, g: Grid, ids: seq<nat>, t: Table, rs: seq<nat>, w: Table)
    requires g.Valid() && KeyFits(g) && Loaded(db, g, ids, t) && UniqueKeys(db, w)
    requires AllPresent(ids, t, w, rs) && Increasing(rs) && forall i :: 0 <= i < |rs| ==> rs[i] < |g.rows|
    requires rs != [] && ExecAll(db, DeletesOf(g, rs), w).Some?
    ensures rs[0] < |ids| &&
            var x := w.(rows := w.rows - {ids[rs[0]]});
            UniqueKeys(db, x) && AllPresent(ids, t, x, rs[1..]) &&
            ExecAll(db, DeletesOf(g, rs), w) == ExecAll(db, DeletesOf(g, rs[1..]), x)
  {
    hide *;
    var ss := DeletesOf(g, rs);
    DeletesCons(g, rs);
    ExecStep(db, ss, w);
    FirstPresent(ids, t, w, rs);
    DeleteHitsItsRow(db, g, ids, t, w, rs[0]);
    var x := w.(rows := w.rows - {ids[rs[0]]});
    GuardedOne(db, ss[0], w, x);
    RemovalKeepsRest(db, g, ids, t, w, rs);
  }

  lemma DeletesCons(g: Grid, rs: seq<nat>)
    requires g.Valid() && KeyFits(g) && rs != [] && forall i :: 0 <= i < |rs| ==> rs[i] < |g.rows|
    ensures DeletesOf(g, rs) != [] && DeletesOf(g, rs)[0] == DeleteOf(g, rs[0])
    ensures DeletesOf(g, rs)[1..] == DeletesOf(g, rs[1..])
  {
    hide DeleteOf;
  }

  lemma FirstPresent(ids: seq<nat>, t: Table, w: Table, rs: seq<nat>)
    requires rs != [] && AllPresent(ids, t, w, rs)
    ensures rs[0] < |ids| && Present(ids, t, w, rs[0])
  {
  }

  lemma RemovalKeepsRest(db: Database, g: Grid, ids: seq<nat>, t: Table, w: Table, rs: seq<nat>)
    requires g.Valid() && KeyFits(g) && Loaded(db, g, ids, t) && rs != [] && rs[0] < |ids|
    requires AllPresent(ids, t, w, rs) && Increasing(rs)
    ensures AllPresent(ids, t, w.(rows := w.rows - {ids[rs[0]]}), rs[1..])
  {
    hide Loaded;
    hide AllPresent;
    RestPresent(db, g, ids, t, w, w.(rows := w.rows - {ids[rs[0]]}), rs);
  }

  lemma GuardedOne(db: Database, s: Statement, w: Table, x: Table)
    requires Exec(db, s, w) == if Accepts(db, x) then Some(Effect(x, 1)) else None
    requires ExecGuarded(db, s, w).Some?
    ensures ExecGuarded(db, s, w) == Some(x) && UniqueKeys(db, x)
  {
    hide Exec;
    hide UniqueKeys;
  }

  lemma ExecStep(db: Database, ss: seq<Statement>, w: Table)
    requires ss != [] && ExecAll(db, ss, w).Some?
    ensures ExecGuarded(db, ss[0], w).Some? && ExecAll(db, ss, w) == ExecAll(db, ss[1..], ExecGuarded(db, ss[0], w).value)
  {
    hide ExecGuarded;
  }

  lemma {:induction false} DeletesDo(db: Database, g: Grid, ids: seq<nat>, t: Table, rs: seq<nat>, w: Table)
    requires g.Valid() && KeyFits(g) && Loaded(db, g, ids, t) && UniqueKeys(db, w)
    requires AllPresent(ids, t, w, rs) && Increasing(rs) && forall i :: 0 <= i < |rs| ==> rs[i] < |g.rows|
    requires ExecAll(db, DeletesOf(g, rs), w).Some?
    ensures var u := ExecAll(db, DeletesOf(g, rs), w).value;
            UniqueKeys(db, u) && Removed(ids, rs, w, u)
    decreases |rs|
  {
    hide *;
    if rs == [] {
      RemovedNone(ids, w);
      NoDeletes(g);
      ExecNothing(db, DeletesOf(g, rs), w);
    } else {
      FirstDelete(db, g, ids, t, rs, w);
      var x := w.(rows := w.rows - {ids[rs[0]]});
      IncreasingTail(rs);
      DeletesDo(db, g, ids, t, rs[1..], x);
      RemovedCons(ids, rs, w, ExecAll(db, DeletesOf(g, rs), w).value);
    }
  }

  lemma NoDeletes(g: Grid)
    requires g.Valid() && KeyFits(g)
    ensures DeletesOf(g, []) == []
  {
  }

  lemma ExecNothing(db: Database, ss: seq<Statement>, w: Table)
    requires ss == []
    ensures ExecAll(db, ss, w) == Some(w)
  {
  }

  lemma IncreasingTail(rs: seq<nat>)
    requires rs != [] && Increasing(rs)
    ensures Increasing(rs[1..])
  {
  }

  lemma RestPresent(db: Database, g: Grid, ids: seq<nat>, t: Table, w: Table, x: Table, rs: seq<nat>)
    requires g.Valid() && KeyFits(g) && Loaded(db, g, ids, t)
    requires rs != [] && AllPresent(ids, t, w, rs) && Increasing(rs)
    requires forall id :: id in w.rows && id != ids[rs[0]] ==> id in x.rows && x.rows[id] == w.rows[id]
    ensures AllPresent(ids, t, x, rs[1..])
  {
    forall i | 0 <= i < |rs[1..]| ensures Present(ids, t, x, rs[1..][i]) {
      assert Present(ids, t, w, rs[i + 1]) && Present(ids, t, w, rs[0]);
      assert rs[0] < rs[i + 1];
    }
  }

  lemma HitFirst(ids: seq<nat>, rs: seq<nat>)
    requires rs != [] && rs[0] < |ids|
    ensures forall id :: Hit(ids, rs, id) <==> id == ids[rs[0]] || Hit(ids, rs[1..], id)
  {
    forall id ensures Hit(ids, rs, id) <==> id == ids[rs[0]] || Hit(ids, rs[1..], id) {
      if Hit(ids, rs[1..], id) {
        var i :| 0 <= i < |rs[1..]| && rs[1..][i] < |ids| && ids[rs[1..][i]] == id;
        assert rs[i + 1] == rs[1..][i];
      }
      if Hit(ids, rs, id) && id != ids[rs[0]] {
        var i :| 0 <= i < |rs| && rs[i] < |ids| && ids[rs[i]] == id;
        assert rs[1..][i - 1] == rs[i];
      }
    }
  }

  /** The effect of an update that hits one row. */
  ghost predicate OnlyRowChanged(db: Database, g: Grid, id: nat, cells: map<nat, Value>, before: Row, w: Table, x: Table)
    requires ColumnsFit(g, cells)
  {
    UniqueKeys(db, x) && x.next == w.next && x.rows.Keys == w.rows.Keys &&
    id in x.rows && CellsReplaced(db, g, cells, before, x.rows[id]) &&
    forall other :: other in w.rows && other != id ==> x.rows[other] == w.rows[other]
  }

  lemma UpdatedOne(db: Database, g: Grid, w: Table, id: nat, cells: map<nat, Value>, sets: seq<Bound>, values: seq<Datum>)
    requires id in w.rows && |sets| == |values| && ColumnsFit(g, cells)
    requires CellsReplaced(db, g, cells, w.rows[id], Assigned(sets, values, w.rows[id]))
    requires UniqueKeys(db, Updated(w, {id}, sets, values))
    ensures OnlyRowChanged(db, g, id, cells, w.rows[id], w, Updated(w, {id}, sets, values))
  {
    hide CellsReplaced;
    hide UniqueKeys;
    hide Assigned;
  }

  lemma SetsMean(db: Database, g: Grid, r: nat, cells: map<nat, Value>, before: Row)
    requires g.Valid() && KeyFits(g) && r < |g.rows| && ColumnsFit(g, cells) && DistinctTargets(g)
    requires var s := UpdateOf(g, r, cells); Values(db, s.sets, s.params).Some?
    ensures var s := UpdateOf(g, r, cells);
            var values := Values(db, s.sets, s.params).value;
            |values| == |s.sets| && CellsReplaced(db, g, cells, before, Assigned(s.sets, values, before))
  {
    hide Values;
    hide Assigned;
    hide CellsReplaced;
    hide DistinctTargets;
    ColsOf(g, cells.Keys);
    ColsIn(cells.Keys, |g.target|);
    AssignReplacesAll(db, g, cells, KeyParams(g, r), before);
  }

  lemma UpdateFindsItsRow(db: Database, g: Grid, ids: seq<nat>, t: Table, w: Table, r: nat, cells: map<nat, Value>)
    requires g.Valid() && KeyFits(g) && Loaded(db, g, ids, t) && UniqueKeys(db, w) && Present(ids, t, w, r)
    requires ColumnsFit(g, cells)
    ensures var s := UpdateOf(g, r, cells);
            var values := Values(db, s.key, s.params);
            s.Update? && values.Some? && |values.value| == |s.key| && RowsHit(w, s.key, values.value) == {ids[r]}
  {
    ColsOf(g, cells.Keys);
    ColsIn(cells.Keys, |g.target|);
    var cols := Ascending(cells.Keys, |g.target|);
    var params := UpdateOf(g, r, cells).params;
    assert params == CellParams(cells, cols) + KeyParams(g, r);
    assert params[|cols|..|cols| + |g.pk|] == KeyParams(g, r);
    hide Values;
    hide RowsHit;
    hide Loaded;
    hide UniqueKeys;
    hide Ascending;
    KeyHitsItsRow(db, g, ids, t, w, r, |cols|, params);
  }

  /** An UPDATE replaces exactly the changed cells of its own row. */
  lemma UpdateHitsItsRow(db: Database, g: Grid, ids: seq<nat>, t: Table, w: Table, r: nat, cells: map<nat, Value>)
    requires g.Valid() && KeyFits(g) && Loaded(db, g, ids, t) && UniqueKeys(db, w) && Present(ids, t, w, r)
    requires ColumnsFit(g, cells) && DistinctTargets(g)
    ensures var x := Exec(db, UpdateOf(g, r, cells), w);
            x.Some? ==> x.value.affected == 1 &&
                        OnlyRowChanged(db, g, ids[r], cells, t.rows[ids[r]], w, x.value.table)
  {
    assert ids[r] in w.rows && ids[r] in t.rows && w.rows[ids[r]] == t.rows[ids[r]];
    hide *;
    var s := UpdateOf(g, r, cells);
    if Exec(db, s, w).Some? {
      UpdateFindsItsRow(db, g, ids, t, w, r, cells);
      UpdateEffect(db, s, w, {ids[r]});
      SetsMean(db, g, r, cells, w.rows[ids[r]]);
      UpdatedOne(db, g, w, ids[r], cells, s.sets, Values(db, s.sets, s.params).value);
    }
  }

  lemma UpdateEffect(db: Database, s: Statement, w: Table, hits: set<nat>)
    requires s.Update? && Exec(db, s, w).Some?
    requires |Values(db, s.key, s.params).value| == |s.key| && RowsHit(w, s.key, Values(db, s.key, s.params).value) == hits
    ensures Values(db, s.sets, s.params).Some? && |Values(db, s.sets, s.params).value| == |s.sets|
    ensures var u := Updated(w, hits, s.sets, Values(db, s.sets, s.params).value);
            Exec(db, s, w) == Some(Effect(u, |hits|)) && UniqueKeys(db, u)
  {
    hide Values;
    hide RowsHit;
    hide Updated;
    hide UniqueKeys;
    ValuesLength(db, s.sets, s.params);
  }

  /** The rows of `rs` are edited and nothing else. */
  ghost predicate Changed(db: Database, g: Grid, e: Edits, ids: seq<nat>, rs: seq<nat>, t: Table, w: Table, u: Table)
    requires RowsChanged(g, e, rs)
  {
    u.next == w.next && u.rows.Keys == w.rows.Keys &&
    (forall i :: 0 <= i < |rs| ==> RowChanged(db, g, e, ids, rs[i], t, u)) &&
    (forall id :: id in w.rows && !Hit(ids, rs, id) ==> u.rows[id] == w.rows[id])
  }

  ghost predicate RowChanged(db: Database, g: Grid, e: Edits, ids: seq<nat>, r: nat, t: Table, u: Table)
    requires r in e.changes && ColumnsFit(g, e.changes[r])
  {
    r < |ids| && ids[r] in t.rows && ids[r] in u.rows &&
    CellsReplaced(db, g, e.changes[r], t.rows[ids[r]], u.rows[ids[r]])
  }

  lemma ChangedCons(db: Database, g: Grid, e: Edits, ids: seq<nat>, rs: seq<nat>, t: Table, w: Table, x: Table, u: Table)
    requires RowsChanged(g, e, rs) && rs != [] && Increasing(rs)
    requires forall a, b :: 0 <= a < b < |ids| ==> ids[a] != ids[b]
    requires RowChanged(db, g, e, ids, rs[0], t, x) && x.next == w.next && x.rows.Keys == w.rows.Keys
    requires forall id :: id in w.rows && id != ids[rs[0]] ==> x.rows[id] == w.rows[id]
    requires Changed(db, g, e, ids, rs[1..], t, x, u)
    ensures Changed(db, g, e, ids, rs, t, w, u)
  {
    hide CellsReplaced;
    HitFirst(ids, rs);
    FirstNotLater(ids, rs);
    forall i | 0 <= i < |rs| ensures RowChanged(db, g, e, ids, rs[i], t, u) {
      if i > 0 {
        assert rs[i] == rs[1..][i - 1];
      } else {
        assert u.rows[ids[rs[0]]] == x.rows[ids[rs[0]]];
      }
    }
  }

  lemma FirstNotLater(ids: seq<nat>, rs: seq<nat>)
    requires rs != [] && rs[0] < |ids| && Increasing(rs) && forall a, b :: 0 <= a < b < |ids| ==> ids[a] != ids[b]
    ensures !Hit(ids, rs[1..], ids[rs[0]])
  {
    forall i | 0 <= i < |rs[1..]| && rs[1..][i] < |ids| ensures ids[rs[1..][i]] != ids[rs[0]] {
      assert rs[1..][i] == rs[i + 1];
    }
  }

  lemma ChangedNone(db: Database, g: Grid, e: Edits, ids: seq<nat>, t: Table, w: Table)
    ensures Changed(db, g, e, ids, [], t, w, w)
  {
  }

  /** The first of several UPDATEs. */
  lemma FirstUpdate(db: Database, g: Grid, e: Edits, ids: seq<nat>, t: Table, rs: seq<nat>, w: Table) returns (x: Table)
    requires g.Valid() && KeyFits(g) && Loaded(db, g, ids, t) && UniqueKeys(db, w) && DistinctTargets(g)
    requires AllPresent(ids, t, w, rs) && Increasing(rs) && RowsChanged(g, e, rs)
    requires rs != [] && ExecAll(db, UpdatesOf(g, e, rs), w).Some?
    ensures RowChanged(db, g, e, ids, rs[0], t, x) && x.next == w.next && x.rows.Keys == w.rows.Keys
    ensures forall id :: id in w.rows && id != ids[rs[0]] ==> x.rows[id] == w.rows[id]
    ensures UniqueKeys(db, x) && AllPresent(ids, t, x, rs[1..]) && RowsChanged(g, e, rs[1..])
    ensures ExecAll(db, UpdatesOf(g, e, rs), w) == ExecAll(db, UpdatesOf(g, e, rs[1..]), x)
  {
    var r := rs[0];
    UpdatesCons(g, e, rs);
    assert ColumnsFit(g, e.changes[r]) && g.Valid();
    var ss := UpdatesOf(g, e, rs);
    hide *;
    FirstPresent(ids, t, w, rs);
    ExecStep(db, ss, w);
    UpdateHitsItsRow(db, g, ids, t, w, r, e.changes[r]);
    GuardedEffect(db, ss[0], w);
    x := Exec(db, ss[0], w).value.table;
    OnlyRowIs(db, g, e, ids, r, t, w, x);
    RestPresent(db, g, ids, t, w, x, rs);
  }

  lemma UpdatesCons(g: Grid, e: Edits, rs: seq<nat>)
    requires g.Valid() && KeyFits(g) && rs != [] && RowsChanged(g, e, rs)
    ensures RowsChanged(g, e, rs[1..]) && UpdatesOf(g, e, rs) != []
    ensures UpdatesOf(g, e, rs)[0] == UpdateOf(g, rs[0], e.changes[rs[0]])
    ensures UpdatesOf(g, e, rs)[1..] == UpdatesOf(g, e, rs[1..])
  {
    hide UpdateOf;
    hide ColumnsFit;
  }

  lemma GuardedEffect(db: Database, s: Statement, w: Table)
    requires ExecGuarded(db, s, w).Some?
    ensures Exec(db, s, w).Some? && ExecGuarded(db, s, w) == Some(Exec(db, s, w).value.table)
  {
    hide Exec;
  }

  lemma OnlyRowIs(db: Database, g: Grid, e: Edits, ids: seq<nat>, r: nat, t: Table, w: Table, x: Table)
    requires r in e.changes && ColumnsFit(g, e.changes[r]) && Present(ids, t, w, r)
    requires OnlyRowChanged(db, g, ids[r], e.changes[r], t.rows[ids[r]], w, x)
    ensures RowChanged(db, g, e, ids, r, t, x) && x.next == w.next && x.rows.Keys == w.rows.Keys && UniqueKeys(db, x)
    ensures forall id :: id in w.rows && id != ids[r] ==> id in x.rows && x.rows[id] == w.rows[id]
  {
    hide CellsReplaced;
    hide UniqueKeys;
  }

  lemma {:induction false} UpdatesDo(db: Database, g: Grid, e: Edits, ids: seq<nat>, t: Table, rs: seq<nat>, w: Table)
    requires g.Valid() && KeyFits(g) && Loaded(db, g, ids, t) && UniqueKeys(db, w) && DistinctTargets(g)
    requires AllPresent(ids, t, w, rs) && Increasing(rs) && RowsChanged(g, e, rs)
    requires ExecAll(db, UpdatesOf(g, e, rs), w).Some?
    ensures var u := ExecAll(db, UpdatesOf(g, e, rs), w).value;
            UniqueKeys(db, u) && Changed(db, g, e, ids, rs, t, w, u)
    decreases |rs|
  {
    if rs == [] {
      ChangedNone(db, g, e, ids, t, w);
      assert UpdatesOf(g, e, rs) == [];
      hide Changed;
    } else {
      hide *;
      var x := FirstUpdate(db, g, e, ids, t, rs, w);
      IncreasingTail(rs);
      UpdatesDo(db, g, e, ids, t, rs[1..], x);
      LoadedDistinct(db, g, ids, t);
      ChangedCons(db, g, e, ids, rs, t, w, x, ExecAll(db, UpdatesOf(g, e, rs), w).value);
    }
  }

  lemma LoadedDistinct(db: Database, g: Grid, ids: seq<nat>, t: Table)
    requires g.Valid() && KeyFits(g) && Loaded(db, g, ids, t)
    ensures forall a, b :: 0 <= a < b < |ids| ==> ids[a] != ids[b]
  {
  }

  lemma {:induction false} InsertsDo(db: Database, g: Grid, news: seq<seq<Option<Value>>>, w: Table)
    requires DistinctTargets(g) && UniqueKeys(db, w) && forall i :: 0 <= i < |news| ==> NewRowFits(g, news[i])
    requires ExecAll(db, InsertsOf(g, news), w).Some?
    ensures IsExtended(db, g, news, w, ExecAll(db, InsertsOf(g, news), w).value)
    ensures UniqueKeys(db, ExecAll(db, InsertsOf(g, news), w).value)
    decreases |news|
  {
    if news != [] {
      var ss := InsertsOf(g, news);
      assert ss[0] == InsertOf(g, news[0]) && ss[1..] == InsertsOf(g, news[1..]);
      var given := InsertGives(db, g, news[0], w);
      hide Exec;
      hide InsertsOf;
      hide InsertOf;
      hide UniqueKeys;
      hide GivenBy;
      var x := w.(rows := w.rows[w.next := db.fill(given, w)], next := w.next + 1);
      InsertsDo(db, g, news[1..], x);
    }
  }

  /** An INSERT adds one row with exactly the given cells given. */
  lemma InsertGives(db: Database, g: Grid, row: seq<Option<Value>>, w: Table) returns (given: Row)
    requires NewRowFits(g, row) && DistinctTargets(g) && Exec(db, InsertOf(g, row), w).Some?
    ensures GivenBy(db, g, row, given)
    ensures var u := w.(rows := w.rows[w.next := db.fill(given, w)], next := w.next + 1);
            Exec(db, InsertOf(g, row), w) == Some(Effect(u, 1)) && UniqueKeys(db, u)
  {
    var cells := Filled(row);
    var cols := Ascending(cells.Keys, |g.target|);
    ColsOf(g, cells.Keys);
    ColsIn(cells.Keys, |g.target|);
    assert CellParams(cells, cols) + [] == CellParams(cells, cols);
    AssignReplacesAll(db, g, cells, [], map[]);
    var values := Values(db, SetBounds(g, cols), CellParams(cells, cols)).value;
    given := Assigned(SetBounds(g, cols), values, map[]);
  }

  /** Deletes and updates together are what the edits mean. */
  lemma EditsAreDone(db: Database, g: Grid, e: Edits, ids: seq<nat>, t: Table, d: Table, u: Table)
    requires Ready(g, e) && Loaded(db, g, ids, t) && RowsChanged(g, e, ChangedRows(g, e))
    requires Removed(ids, DeletedRows(g, e), t, d) && Changed(db, g, e, ids, ChangedRows(g, e), t, d, u)
    ensures IsEdited(db, g, e, ids, t, u)
  {
    forall id ensures Hit(ids, DeletedRows(g, e), id) <==> IsDeleted(e, ids, id) {
      DeletedHits(g, e, ids, id);
    }
    forall r: nat | r < |ids| && ids[r] in t.rows && r !in e.deleted ensures RowIsEdited(db, g, e, ids, t, u, r) {
      RowIsDone(db, g, e, ids, t, d, u, r);
    }
    forall id | id in t.rows && id !in ids ensures u.rows[id] == t.rows[id] {
      assert !Hit(ids, DeletedRows(g, e), id) && !Hit(ids, ChangedRows(g, e), id);
    }
    hide RowIsEdited;
    hide DeletedRows;
    hide ChangedRows;
    hide Hit;
    hide IsDeleted;
    hide Loaded;
    hide RowChanged;
  }

  lemma RowIsDone(db: Database, g: Grid, e: Edits, ids: seq<nat>, t: Table, d: Table, u: Table, r: nat)
    requires Ready(g, e) && Loaded(db, g, ids, t) && RowsChanged(g, e, ChangedRows(g, e))
    requires Removed(ids, DeletedRows(g, e), t, d) && Changed(db, g, e, ids, ChangedRows(g, e), t, d, u)
    requires r < |ids| && ids[r] in t.rows && r !in e.deleted
    ensures RowIsEdited(db, g, e, ids, t, u, r)
  {
    hide CellsReplaced;
    KeptIsNotHit(db, g, e, ids, t, r);
    if r in e.changes {
      AscendingIs(e.changes.Keys - e.deleted, |g.rows|);
      var us := ChangedRows(g, e);
      assert r in us;
      var i :| 0 <= i < |us| && us[i] == r;
      assert RowChanged(db, g, e, ids, us[i], t, u);
    } else {
      UnchangedIsNotHit(db, g, e, ids, t, r);
    }
    hide Hit;
    hide Loaded;
    hide DeletedRows;
    hide ChangedRows;
  }

  lemma DeletedHits(g: Grid, e: Edits, ids: seq<nat>, id: nat)
    requires |ids| == |g.rows|
    ensures Hit(ids, DeletedRows(g, e), id) <==> IsDeleted(e, ids, id)
  {
    AscendingIs(e.deleted, |g.rows|);
    var ds := DeletedRows(g, e);
    if Hit(ids, ds, id) {
      var i :| 0 <= i < |ds| && ds[i] < |ids| && ids[ds[i]] == id;
      assert ds[i] in ds;
    }
    if IsDeleted(e, ids, id) {
      var r: nat :| r in e.deleted && r < |ids| && ids[r] == id;
      assert r in ds;
    }
  }

  lemma KeptIsNotHit(db: Database, g: Grid, e: Edits, ids: seq<nat>, t: Table, r: nat)
    requires g.Valid() && KeyFits(g) && Loaded(db, g, ids, t) && r < |ids| && r !in e.deleted
    ensures !Hit(ids, DeletedRows(g, e), ids[r])
  {
    DeletedHits(g, e, ids, ids[r]);
    LoadedDistinct(db, g, ids, t);
  }

  lemma UnchangedIsNotHit(db: Database, g: Grid, e: Edits, ids: seq<nat>, t: Table, r: nat)
    requires g.Valid() && KeyFits(g) && Loaded(db, g, ids, t) && r < |ids| && r !in e.changes
    ensures !Hit(ids, ChangedRows(g, e), ids[r])
  {
    AscendingIs(e.changes.Keys - e.deleted, |g.rows|);
    LoadedDistinct(db, g, ids, t);
    var us := ChangedRows(g, e);
    forall i | 0 <= i < |us| && us[i] < |ids| ensures ids[us[i]] != ids[r] {
      assert us[i] in us;
    }
  }

  /** The table is the old one with the edits done to its rows, and the new
      rows after it, in order, with the given cells and the database's own. */
  ghost predicate IsApplied(db: Database, g: Grid, e: Edits, ids: seq<nat>, t: Table, out: Table)
    requires Ready(g, e) && |ids| == |g.rows|
  {
    out.next == t.next + |e.inserted| &&
    (forall id :: id in out.rows <==> (id in t.rows && !IsDeleted(e, ids, id)) || t.next <= id < out.next) &&
    (forall r: nat :: r < |ids| && ids[r] in t.rows && r !in e.deleted ==> RowIsEdited(db, g, e, ids, t, out, r)) &&
    (forall id :: id in t.rows && id !in ids ==> out.rows[id] == t.rows[id])
  }

  ghost predicate IdsBelowNext(t: Table) {
    forall id :: id in t.rows ==> id < t.next
  }

  /** `n` rows after everything there was, and nothing else. */
  ghost predicate Appended(u: Table, v: Table, n: nat) {
    IdsBelowNext(v) && v.next == u.next + n && |v.rows| == |u.rows| + n &&
    (forall id :: id in v.rows <==> id in u.rows || u.next <= id < v.next) &&
    forall id :: id in u.rows ==> v.rows[id] == u.rows[id]
  }

  function WithRow(u: Table, row: Row): Table {
    u.(rows := u.rows[u.next := row], next := u.next + 1)
  }

  lemma OneAppended(u: Table, row: Row)
    requires IdsBelowNext(u)
    ensures Appended(u, WithRow(u, row), 1)
  {
    var v := WithRow(u, row);
    NewKeyCounts(u.rows, u.next, row);
    assert forall id :: id in v.rows <==> id in u.rows || id == u.next;
  }

  lemma NewKeyCounts(m: map<nat, Row>, id: nat, row: Row)
    requires id !in m
    ensures |m[id := row]| == |m| + 1
  {
    assert m[id := row].Keys == m.Keys + {id};
  }

  lemma AppendedTwice(u: Table, w: Table, v: Table, n: nat)
    requires IdsBelowNext(u) && Appended(u, w, 1) && Appended(w, v, n)
    ensures Appended(u, v, n + 1)
  {
  }

  lemma FirstExtended(db: Database, g: Grid, news: seq<seq<Option<Value>>>, u: Table, v: Table) returns (given: Row)
    requires news != [] && (forall i :: 0 <= i < |news| ==> NewRowFits(g, news[i])) && IsExtended(db, g, news, u, v)
    ensures GivenBy(db, g, news[0], given) && IsExtended(db, g, news[1..], WithRow(u, db.fill(given, u)), v)
  {
    hide GivenBy;
    hide NewRowFits;
    given :| GivenBy(db, g, news[0], given) &&
      IsExtended(db, g, news[1..], u.(rows := u.rows[u.next := db.fill(given, u)], next := u.next + 1), v);
  }

  /** The new rows come after everything there was, one each. */
  lemma {:induction false} ExtendedKeeps(db: Database, g: Grid, news: seq<seq<Option<Value>>>, u: Table, v: Table)
    requires IdsBelowNext(u) && (forall i :: 0 <= i < |news| ==> NewRowFits(g, news[i])) && IsExtended(db, g, news, u, v)
    ensures Appended(u, v, |news|)
    decreases |news|
  {
    if news == [] {
      assert v == u;
    } else {
      hide *;
      var given := FirstExtended(db, g, news, u, v);
      var row := db.fill(given, u);
      OneAppended(u, row);
      AppendedBelow(u, WithRow(u, row), 1);
      ExtendedKeeps(db, g, news[1..], WithRow(u, row), v);
      AppendedTwice(u, WithRow(u, row), v, |news| - 1);
    }
  }

  lemma AppendedBelow(u: Table, v: Table, n: nat)
    requires Appended(u, v, n)
    ensures IdsBelowNext(v)
  {
  }

  /** The database stores the values an INSERT gives; it adds to them only. */
  ghost predicate FillKeeps(db: Database) {
    forall given: Row, t: Table, name :: name in given ==> SameField(given, db.fill(given, t), name)
  }

  /** Row `id` holds the value of the text typed into cell `c` of a new row. */
  ghost predicate HoldsGiven(db: Database, g: Grid, row: seq<Option<Value>>, c: nat, id: nat, out: Table)
    requires NewRowFits(g, row) && c < |row| && row[c].Some?
  {
    id in out.rows && Col(g, c).name in out.rows[id] &&
    CellValue(db, g, c, row[c].value) == Some(out.rows[id][Col(g, c).name])
  }

  ghost predicate RowHolds(db: Database, g: Grid, row: seq<Option<Value>>, id: nat, out: Table)
    requires NewRowFits(g, row)
  {
    forall c: nat :: c < |row| && row[c].Some? ==> HoldsGiven(db, g, row, c, id, out)
  }

  /** The new rows stand from `first` on, in order, with everything typed. */
  ghost predicate HoldsNewRows(db: Database, g: Grid, news: seq<seq<Option<Value>>>, first: nat, out: Table)
    requires forall i :: 0 <= i < |news| ==> NewRowFits(g, news[i])
  {
    forall i: nat :: i < |news| ==> RowHolds(db, g, news[i], first + i, out)
  }

  lemma FirstRowHolds(db: Database, g: Grid, row: seq<Option<Value>>, given: Row, u: Table, v: Table)
    requires NewRowFits(g, row) && FillKeeps(db) && GivenBy(db, g, row, given)
    requires u.next in v.rows && v.rows[u.next] == db.fill(given, u)
    ensures RowHolds(db, g, row, u.next, v)
  {
    hide NewRowFits;
    hide FillKeeps;
    hide GivenBy;
    hide HoldsGiven;
    forall c: nat | c < |row| && row[c].Some? ensures HoldsGiven(db, g, row, c, u.next, v) {
      FilledKeeps(db, g, row, given, u, v, c);
    }
  }

  lemma FilledKeeps(db: Database, g: Grid, row: seq<Option<Value>>, given: Row, u: Table, v: Table, c: nat)
    requires NewRowFits(g, row) && FillKeeps(db) && GivenBy(db, g, row, given) && c < |row| && row[c].Some?
    requires u.next in v.rows && v.rows[u.next] == db.fill(given, u)
    ensures HoldsGiven(db, g, row, c, u.next, v)
  {
    assert c in Filled(row);
    assert SameField(given, db.fill(given, u), Col(g, c).name);
  }

  lemma FirstStays(u: Table, row: Row, v: Table, n: nat)
    requires Appended(WithRow(u, row), v, n)
    ensures u.next in v.rows && v.rows[u.next] == row && WithRow(u, row).next == u.next + 1
  {
    assert u.next in WithRow(u, row).rows;
  }

  /** What was typed into the new rows is what the table holds in them. */
  lemma {:induction false} NewRowsHold(db: Database, g: Grid, news: seq<seq<Option<Value>>>, u: Table, v: Table)
    requires FillKeeps(db) && IdsBelowNext(u) && (forall i :: 0 <= i < |news| ==> NewRowFits(g, news[i]))
    requires IsExtended(db, g, news, u, v)
    ensures HoldsNewRows(db, g, news, u.next, v)
    decreases |news|
  {
    if news != [] {
      hide *;
      var given := FirstExtended(db, g, news, u, v);
      var w := WithRow(u, db.fill(given, u));
      OneAppended(u, db.fill(given, u));
      AppendedBelow(u, w, 1);
      ExtendedKeeps(db, g, news[1..], w, v);
      FirstStays(u, db.fill(given, u), v, |news| - 1);
      NewRowsHold(db, g, news[1..], w, v);
      FirstRowHolds(db, g, news[0], given, u, v);
      NewRowsCons(db, g, news, u.next, v);
    }
  }

  lemma NewRowsCons(db: Database, g: Grid, news: seq<seq<Option<Value>>>, first: nat, out: Table)
    requires news != [] && forall i :: 0 <= i < |news| ==> NewRowFits(g, news[i])
    requires RowHolds(db, g, news[0], first, out) && HoldsNewRows(db, g, news[1..], first + 1, out)
    ensures HoldsNewRows(db, g, news, first, out)
  {
    hide RowHolds;
    hide NewRowFits;
    forall i: nat | i < |news| ensures RowHolds(db, g, news[i], first + i, out) {
      if i > 0 {
        assert news[1..][i - 1] == news[i];
        assert RowHolds(db, g, news[1..][i - 1], first + 1 + (i - 1), out);
      }
    }
  }

  lemma EditedIsApplied(db: Database, g: Grid, e: Edits, ids: seq<nat>, t: Table, u: Table, out: Table)
    requires Ready(g, e) && |ids| == |g.rows| && IdsBelowNext(t)
    requires IsEdited(db, g, e, ids, t, u) && IsExtended(db, g, e.inserted, u, out)
    ensures IsApplied(db, g, e, ids, t, out) && IdsBelowNext(out) && |out.rows| == |u.rows| + |e.inserted|
  {
    ExtendedKeeps(db, g, e.inserted, u, out);
    hide IsExtended;
    hide CellsReplaced;
    hide NewRowFits;
    forall r: nat | r < |ids| && ids[r] in t.rows && r !in e.deleted ensures RowIsEdited(db, g, e, ids, t, out, r) {
      assert RowIsEdited(db, g, e, ids, t, u, r);
    }
    hide RowIsEdited;
    hide Ready;
  }

  /** Edit faithfulness: if all statements succeed on a table that still holds
      the rows to change and delete, the result is the original without the
      deleted rows, with exactly the changed cells replaced, and then the new
      rows; keys that earlier updates change never send a later statement
      astray. If the database stores what it is given, the new rows hold
      everything typed into them. */
  lemma EditsAreFaithful(db: Database, g: Grid, e: Edits, ids: seq<nat>, t: Table)
    requires Ready(g, e) && DistinctTargets(g) && Loaded(db, g, ids, t) && TouchedPresent(e, ids, t) && TableOk(db, t)
    requires ExecAll(db, Statements(g, e), t).Some?
    ensures var out := ExecAll(db, Statements(g, e), t).value;
            TableOk(db, out) && IsApplied(db, g, e, ids, t, out) &&
            exists u :: IsEdited(db, g, e, ids, t, u) && IsExtended(db, g, e.inserted, u, out) &&
                        |out.rows| == |u.rows| + |e.inserted|
    ensures FillKeeps(db) ==> HoldsNewRows(db, g, e.inserted, t.next, ExecAll(db, Statements(g, e), t).value)
  {
    RowsFit(g, e);
    var (ds, us) := (DeletedRows(g, e), ChangedRows(g, e));
    var (deletes, updates, inserts) := (DeletesOf(g, ds), UpdatesOf(g, e, us), InsertsOf(g, e.inserted));
    assert UniqueKeys(db, t) && IdsBelowNext(t);
    ExecAllJoins(db, deletes + updates, inserts, t);
    ExecAllJoins(db, deletes, updates, t);
    var d := ExecAll(db, deletes, t).value;
    var u := ExecAll(db, updates, d).value;
    RowsInOrder(db, g, e, ids, t);
    DeletesDo(db, g, ids, t, ds, t);
    KeptPresent(db, g, e, ids, t, d);
    UpdatesDo(db, g, e, ids, t, us, d);
    InsertsDo(db, g, e.inserted, u);
    EditsAreDone(db, g, e, ids, t, d, u);
    var out := ExecAll(db, Statements(g, e), t).value;
    hide *;
    EditedIsApplied(db, g, e, ids, t, u, out);
    OkIs(db, out);
    EditedBelow(db, g, e, ids, t, u);
    if FillKeeps(db) {
      NewRowsHold(db, g, e.inserted, u, out);
    }
  }

  lemma EditedBelow(db: Database, g: Grid, e: Edits, ids: seq<nat>, t: Table, u: Table)
    requires Ready(g, e) && |ids| == |g.rows| && IdsBelowNext(t) && IsEdited(db, g, e, ids, t, u)
    ensures IdsBelowNext(u) && u.next == t.next && forall i :: 0 <= i < |e.inserted| ==> NewRowFits(g, e.inserted[i])
  {
    hide RowIsEdited;
    hide RealChange;
    hide NewRowFits;
  }

  lemma OkIs(db: Database, t: Table)
    requires UniqueKeys(db, t) && IdsBelowNext(t)
    ensures TableOk(db, t)
  {
    hide UniqueKeys;
  }

  lemma RowsInOrder(db: Database, g: Grid, e: Edits, ids: seq<nat>, t: Table)
    requires Ready(g, e) && Loaded(db, g, ids, t) && TouchedPresent(e, ids, t)
    ensures Increasing(DeletedRows(g, e)) && Increasing(ChangedRows(g, e))
    ensures AllPresent(ids, t, t, DeletedRows(g, e))
  {
    AscendingIs(e.deleted, |g.rows|);
    AscendingIs(e.changes.Keys - e.deleted, |g.rows|);
    var ds := DeletedRows(g, e);
    forall i | 0 <= i < |ds| ensures Present(ids, t, t, ds[i]) {
      assert ds[i] in ds;
    }
  }

  lemma KeptPresent(db: Database, g: Grid, e: Edits, ids: seq<nat>, t: Table, d: Table)
    requires Ready(g, e) && Loaded(db, g, ids, t) && TouchedPresent(e, ids, t) && Removed(ids, DeletedRows(g, e), t, d)
    ensures AllPresent(ids, t, d, ChangedRows(g, e))
  {
    AscendingIs(e.changes.Keys - e.deleted, |g.rows|);
    var us := ChangedRows(g, e);
    forall i | 0 <= i < |us| ensures Present(ids, t, d, us[i]) {
      assert us[i] in us;
      KeptIsNotHit(db, g, e, ids, t, us[i]);
    }
  }

  /** The displayed cells convert back to the values they show. */
  ghost predicate CellsShown(db: Database, g: Grid, ids: seq<nat>, t: Table)
    requires g.Valid() && |ids| == |g.rows|
  {
    forall r: nat, c: nat :: r < |ids| && g.Editable(c) && ids[r] in t.rows ==>
      CellValue(db, g, c, g.rows[r][c]) == Some(Field(t.rows[ids[r]], Col(g, c).name))
  }

  /** What the user saw is what the table holds: every editable cell of every
      row that stays is the value of the text shown for it. */
  lemma TableHoldsWhatWasShown(db: Database, g: Grid, e: Edits, ids: seq<nat>, t: Table, out: Table, r: nat, c: nat)
    requires Ready(g, e) && DistinctTargets(g) && Loaded(db, g, ids, t) && CellsShown(db, g, ids, t)
    requires IsApplied(db, g, e, ids, t, out)
    requires r < |g.rows| && ids[r] in t.rows && r !in e.deleted && g.Editable(c)
    ensures HoldsShown(db, g, e, ids, out, r, c)
  {
    assert RowIsEdited(db, g, e, ids, t, out, r);
    if r in e.changes && c !in e.changes[r] {
      OtherNames(g, e.changes[r].Keys, c);
      assert SameField(t.rows[ids[r]], out.rows[ids[r]], Col(g, c).name);
    }
  }

  /** The table holds the value of the text shown in a cell. */
  ghost predicate HoldsShown(db: Database, g: Grid, e: Edits, ids: seq<nat>, out: Table, r: nat, c: nat)
    requires g.Valid() && |ids| == |g.rows| && r < |g.rows| && g.Editable(c)
  {
    ids[r] in out.rows &&
    CellValue(db, g, c, CellShows(g, e, r, c)) == Some(Field(out.rows[ids[r]], Col(g, c).name))
  }

  lemma OtherNames(g: Grid, cols: set<nat>, c: nat)
    requires DistinctTargets(g) && g.Editable(c) && c !in cols && forall d :: d in cols ==> g.Editable(d)
    ensures !NamesColumn(g, cols, Col(g, c).name)
  {
    forall d | d in cols ensures Col(g, d).name != Col(g, c).name {
      assert d < c || c < d;
    }
  }

  /** A grid that editing was started on is fit for all this. */
  lemma StartedGridFits(g: Grid, keys: seq<ColumnInfo>)
    requires WellTargeted(Editable(g.target, g.pk), keys)
    ensures KeyFits(g) && DistinctTargets(g)
  {
    forall k | 0 <= k < |g.pk| ensures g.Editable(g.pk[k]) {
      assert IsHit(g.target, keys[k].name, g.pk[k]);
    }
  }
}

/** `apply`: the statements in one transaction on a session of their own. */
module ApplyRun {
  import opened Prelude
  import opened StatementSpec
  import opened TableSpec

  datatype Command = Begin | Run(statement: Statement) | Commit | Rollback

  /** What can go wrong with a request besides the database refusing it: it
      never arrives, or it takes effect and the reply is lost. */
  datatype Fault = NoFault | NotSent | ReplyLost

  datatype Result = Applied(count: nat) | Failed(statement: Option<nat>)

  class Session {
    const db: Database
    /** What the database checks only at COMMIT: deferred constraints, or
        whether the transaction can be serialised. */
    const commits: Table -> bool
    const faults: nat -> Fault
    /** What everybody sees, and what this session's transaction sees. */
    var committed: Table
    var working: Option<Table>
    var clock: nat

    constructor (db: Database, commits: Table -> bool, faults: nat -> Fault, table: Table)
      ensures this.db == db && this.commits == commits && this.faults == faults
      ensures committed == table && working == None && clock == 0
    {
      this.db, this.commits, this.faults, committed, working, clock := db, commits, faults, table, None, 0;
    }

    /** The database's side of one request: rows affected, or an error. */
    method Perform(c: Command) returns (affected: Option<nat>)
      modifies this`committed, this`working
      ensures c.Begin? ==> affected == Some(0) && working == Some(old(committed)) && committed == old(committed)
      ensures c.Rollback? ==> affected == Some(0) && working == None && committed == old(committed)
      ensures c.Commit? ==>
        working == None && (affected == None || affected == Some(0)) &&
        (affected.Some? <==> old(working).None? || commits(old(working).value)) &&
        committed == if old(working).Some? && affected.Some? then old(working).value else old(committed)
      ensures c.Run? && old(working).Some? ==>
        var r := Exec(db, c.statement, old(working).value);
        committed == old(committed) &&
        (if r.Some? then affected == Some(r.value.affected) && working == Some(r.value.table)
         else affected == None && working == old(working))
    {
      affected := Some(0);
      match c {
        case Begin => working := Some(committed);
        case Rollback => working := None;
        case Commit =>
          if working.Some? {
            var ok := commits(working.value);
            if ok { committed := working.value; } else { affected := None; }
          }
          working := None;
        case Run(s) =>
          var t := if working.Some? then working.value else committed;
          var r := Exec(db, s, t);
          if r.None? { return None; }
          affected := Some(r.value.affected);
          if working.Some? { working := Some(r.value.table); } else { committed := r.value.table; }
      }
    }

    /** One request and its reply, as the client sees it. */
    method Request(c: Command) returns (affected: Option<nat>)
      requires c.Run? ==> working.Some?
      modifies this
      ensures clock == old(clock) + 1
      ensures !c.Commit? ==> committed == old(committed)
      ensures c.Begin? && affected.Some? ==> working == Some(old(committed))
      ensures c.Run? && affected.Some? ==>
        Exec(db, c.statement, old(working).value) == (if working.Some? then Some(Effect(working.value, affected.value)) else None) &&
        working.Some?
      ensures c.Run? && affected.None? && faults(old(clock)) == NoFault ==> Exec(db, c.statement, old(working).value) == None
      ensures (c.Begin? || c.Rollback?) && faults(old(clock)) == NoFault ==> affected.Some?
      ensures (c.Commit? || c.Rollback?) && faults(old(clock)) == NoFault ==> working == None
      ensures affected.Some? ==> faults(old(clock)) == NoFault
      ensures c.Commit? && old(working).Some? ==>
        (faults(old(clock)) == NoFault ==> (affected.Some? <==> commits(old(working).value))) &&
        committed == (if faults(old(clock)) == NotSent || !commits(old(working).value) then old(committed)
                      else old(working).value)
    {
      var fault := faults(clock);
      clock := clock + 1;
      if fault == NotSent { return None; }
      affected := Perform(c);
      if fault == ReplyLost { affected := None; }
    }

    /** The database takes every statement, and then the whole. */
    ghost predicate Succeeds(ss: seq<Statement>, t: Table) {
      ExecAll(db, ss, t).Some? && commits(ExecAll(db, ss, t).value)
    }

    /** All statements between BEGIN and COMMIT; ROLLBACK when one fails or
        the database refuses to commit. */
    method Apply(ss: seq<Statement>) returns (r: Result)
      requires working == None
      modifies this
      ensures r.Applied? ==> r.count == |ss| && ExecAll(db, ss, old(committed)) == Some(committed) && commits(committed)
      ensures r.Failed? ==>
        committed == old(committed) ||
        (faults(old(clock) + 1 + |ss|) == ReplyLost && ExecAll(db, ss, old(committed)) == Some(committed))
      ensures !Succeeds(ss, old(committed)) ==> r.Failed? && committed == old(committed)
      ensures (forall k :: old(clock) <= k < old(clock) + |ss| + 2 ==> faults(k) == NoFault) ==>
        (r.Applied? <==> Succeeds(ss, old(committed)))
      ensures clock > old(clock) && (faults(clock - 1) == NoFault ==> working == None)
    {
      ghost var t := committed;
      hide ExecAll;
      hide Exec;
      var began := Request(Begin);
      r := Failed(None);
      if began.Some? {
        var done, failed := RunAll(ss, t);
        if !done {
          r := Failed(Some(failed));
        } else {
          var ended := Request(Commit);
          if ended.Some? { return Applied(|ss|); }
        }
      }
      var _ := Request(Rollback);
    }

    /** The statements in order, up to the first one that fails or, unless it
        is an INSERT, touches no row. */
    method RunAll(ss: seq<Statement>, ghost t: Table) returns (done: bool, failed: nat)
      requires working == Some(t)
      modifies this
      ensures committed == old(committed)
      ensures old(clock) <= clock <= old(clock) + |ss| && (done ==> clock == old(clock) + |ss|)
      ensures done ==> working.Some? && ExecAll(db, ss, t) == working
      ensures !done && (forall k :: old(clock) <= k < old(clock) + |ss| ==> faults(k) == NoFault) ==>
        ExecAll(db, ss, t) == None
    {
      var i := 0;
      assert ss[0..] == ss;
      failed := 0;
      while i < |ss|
        invariant i <= |ss| && committed == old(committed) && clock == old(clock) + i
        invariant working.Some? && ExecAll(db, ss, t) == ExecAll(db, ss[i..], working.value)
      {
        assert ss[i..][0] == ss[i] && ss[i..][1..] == ss[i + 1..];
        var affected := Request(Run(ss[i]));
        if affected.None? || (affected.value == 0 && !ss[i].Insert?) { return false, i; }
        i := i + 1;
      }
      assert ss[i..] == [];
      done := true;
    }
  }
}
