/** The guard of `apply` against rows that changed or went since they were
    loaded (crates/sqail-ui/src/editing.rs:562-568): when it stops, and when a
    pending key change gets past it. Nothing is assumed of the table. */
module GuardSpec {
  import opened Prelude
  import opened ColumnSpec
  import opened EditSpec
  import opened StatementSpec
  import opened TableSpec

  /** No row of the table has this key. */
  ghost predicate Absent(db: Database, t: Table, key: seq<Datum>) {
    forall id :: id in t.rows ==> KeyOf(db, t.rows[id]) != key
  }

  /** The key columns are the table's primary key, and row `r` reads as `key`. */
  ghost predicate ReadsAs(db: Database, g: Grid, r: nat, key: seq<Datum>)
    requires g.Valid() && KeyFits(g) && r < |g.rows|
  {
    |db.keyNames| == |g.pk| && KeyShown(db, g, r, key) &&
    forall k :: 0 <= k < |g.pk| ==> Col(g, g.pk[k]).name == db.keyNames[k]
  }

  lemma NothingToHit(db: Database, g: Grid, r: nat, n: nat, params: seq<Param>, key: seq<Datum>, t: Table)
    requires g.Valid() && KeyFits(g) && r < |g.rows| && ReadsAs(db, g, r, key) && KeyParamsAt(g, r, n, params)
    requires Absent(db, t, key)
    ensures Values(db, KeyBounds(g, n), params) == Some(key) && |key| == |KeyBounds(g, n)| &&
            RowsHit(t, KeyBounds(g, n), key) == {}
  {
    var bounds := KeyBounds(g, n);
    KeyValues(db, g, r, n, params, key, |g.pk|);
    assert bounds[..|g.pk|] == bounds && key[..|g.pk|] == key;
    forall id | id in t.rows ensures !Matches(bounds, key, t.rows[id]) {
      KeyMatches(db, g, n, key, t.rows[id]);
    }
  }

  lemma DeleteFindsNothing(db: Database, g: Grid, r: nat, key: seq<Datum>)
    requires g.Valid() && KeyFits(g) && r < |g.rows| && ReadsAs(db, g, r, key)
    ensures FindsNothing(db, DeleteOf(g, r), key)
  {
    assert KeyParams(g, r)[0..0 + |g.pk|] == KeyParams(g, r);
    hide ReadsAs;
    forall t | Absent(db, t, key) ensures ExecGuarded(db, DeleteOf(g, r), t) == None {
      NothingToHit(db, g, r, 0, KeyParams(g, r), key, t);
      hide Absent;
      hide Values;
      hide RowsHit;
      hide Accepts;
    }
  }

  lemma UpdateFindsNothing(db: Database, g: Grid, r: nat, cells: map<nat, Value>, key: seq<Datum>)
    requires g.Valid() && KeyFits(g) && r < |g.rows| && ReadsAs(db, g, r, key) && ColumnsFit(g, cells)
    ensures FindsNothing(db, UpdateOf(g, r, cells), key)
  {
    var cols := Ascending(cells.Keys, |g.target|);
    ColsOf(g, cells.Keys);
    ColsIn(cells.Keys, |g.target|);
    var s := UpdateOf(g, r, cells);
    assert s.params == CellParams(cells, cols) + KeyParams(g, r);
    assert s.params[|cols|..|cols| + |g.pk|] == KeyParams(g, r);
    hide ReadsAs;
    forall t | Absent(db, t, key) ensures ExecGuarded(db, s, t) == None {
      NothingToHit(db, g, r, |cols|, s.params, key, t);
      hide Absent;
      hide Values;
      hide RowsHit;
      hide Accepts;
      hide UpdateOf;
      hide Updated;
    }
  }

  /** A statement whose key is nowhere is stopped by the guard. */
  ghost predicate FindsNothing(db: Database, s: Statement, key: seq<Datum>) {
    !s.Insert? && forall t :: Absent(db, t, key) ==> ExecGuarded(db, s, t) == None
  }

  /** The changes of row `j` reach a key column. */
  ghost predicate ChangesKey(g: Grid, e: Edits, j: nat) {
    j in e.changes && exists k :: 0 <= k < |g.pk| && g.pk[k] in e.changes[j]
  }

  /** The value of key column `k` after the update of row `j`: the pending one
      where there is one, else the one displayed. */
  function KeyCellAfter(db: Database, g: Grid, e: Edits, j: nat, k: nat): Option<Datum>
    requires g.Valid() && KeyFits(g) && j < |g.rows| && j in e.changes && k < |g.pk|
  {
    var c := g.pk[k];
    if c in e.changes[j] then CellValue(db, g, c, e.changes[j][c]) else db.convert(Col(g, c), KeyText(g.rows[j][c]))
  }

  ghost predicate KeyAfterIs(db: Database, g: Grid, e: Edits, j: nat, key: seq<Datum>)
    requires g.Valid() && KeyFits(g) && j < |g.rows| && j in e.changes
  {
    |key| == |g.pk| && forall k :: 0 <= k < |g.pk| ==> KeyCellAfter(db, g, e, j, k) == Some(key[k])
  }

  /** The pending changes of row `j` give it this key. */
  ghost predicate TakesKey(db: Database, g: Grid, e: Edits, j: nat, key: seq<Datum>)
    requires g.Valid() && KeyFits(g)
  {
    j < |g.rows| && ChangesKey(g, e, j) && KeyAfterIs(db, g, e, j, key)
  }

  /** The key columns of the grid are the table's primary key. */
  ghost predicate KeyNamesFit(db: Database, g: Grid)
    requires g.Valid() && KeyFits(g)
  {
    |db.keyNames| == |g.pk| && forall k :: 0 <= k < |g.pk| ==> Col(g, g.pk[k]).name == db.keyNames[k]
  }

  /** What an update does to one row with the key it looks for. */
  lemma KeyReplaced(db: Database, g: Grid, e: Edits, j: nat, shown: seq<Datum>, before: Row, after: Row, key: seq<Datum>)
    requires g.Valid() && KeyFits(g) && KeyNamesFit(db, g) && DistinctTargets(g)
    requires j < |g.rows| && j in e.changes && ColumnsFit(g, e.changes[j]) && |key| == |g.pk|
    requires KeyShown(db, g, j, shown) && KeyOf(db, before) == shown && CellsReplaced(db, g, e.changes[j], before, after)
    ensures KeyOf(db, after) == key <==> KeyAfterIs(db, g, e, j, key)
  {
    KeyLength(db, after);
    hide KeyOf;
    forall k: nat | k < |g.pk| ensures KeyCellAfter(db, g, e, j, k) == Some(KeyOf(db, after)[k]) {
      KeyCellReplaced(db, g, e, j, shown, before, after, k);
    }
  }

  lemma KeyLength(db: Database, row: Row)
    ensures |KeyOf(db, row)| == |db.keyNames|
  {
  }

  lemma KeyCellReplaced(db: Database, g: Grid, e: Edits, j: nat, shown: seq<Datum>, before: Row, after: Row, k: nat)
    requires g.Valid() && KeyFits(g) && KeyNamesFit(db, g) && DistinctTargets(g)
    requires j < |g.rows| && j in e.changes && ColumnsFit(g, e.changes[j]) && k < |g.pk|
    requires KeyShown(db, g, j, shown) && KeyOf(db, before) == shown && CellsReplaced(db, g, e.changes[j], before, after)
    ensures |KeyOf(db, after)| == |g.pk| && KeyCellAfter(db, g, e, j, k) == Some(KeyOf(db, after)[k])
  {
    var (c, cells) := (g.pk[k], e.changes[j]);
    assert g.Editable(c);
    if c !in cells {
      OtherNames(g, cells.Keys, c);
      assert SameField(before, after, Col(g, c).name);
      assert shown[k] == Field(before, db.keyNames[k]);
    }
  }

  lemma {:induction false} ValuesAre(db: Database, bounds: seq<Bound>, params: seq<Param>, k: nat)
    requires Values(db, bounds, params).Some? && k < |bounds|
    ensures |Values(db, bounds, params).value| == |bounds|
    ensures ParamValue(db, bounds[k].col, params, bounds[k].n) == Some(Values(db, bounds, params).value[k])
  {
    ValuesLength(db, bounds, params);
    hide ParamValue;
    if k < |bounds| - 1 {
      ValuesAre(db, bounds[..|bounds| - 1], params, k);
    }
  }

  /** A statement that found a row looked for the displayed key. */
  lemma FoundIsShown(db: Database, g: Grid, j: nat, n: nat, params: seq<Param>, w: Table)
    requires g.Valid() && KeyFits(g) && j < |g.rows| && KeyParamsAt(g, j, n, params)
    requires var values := Values(db, KeyBounds(g, n), params);
             values.Some? && |values.value| == |KeyBounds(g, n)| && RowsHit(w, KeyBounds(g, n), values.value) != {}
    ensures KeyShown(db, g, j, Values(db, KeyBounds(g, n), params).value)
  {
    var (bounds, values) := (KeyBounds(g, n), Values(db, KeyBounds(g, n), params).value);
    var id :| id in RowsHit(w, bounds, values);
    assert Matches(bounds, values, w.rows[id]);
    forall k: nat | k < |g.pk|
      ensures values[k] != Null && db.convert(Col(g, g.pk[k]), KeyText(g.rows[j][g.pk[k]])) == Some(values[k])
    {
      ValuesAre(db, bounds, params, k);
      assert params[n + k] == params[n..n + |g.pk|][k] == KeyParams(g, j)[k];
    }
  }

  /** The rows with the displayed key are updated, all others stay. */
  ghost predicate UpdatesKey(db: Database, g: Grid, cells: map<nat, Value>, shown: seq<Datum>, w: Table, x: Table)
    requires ColumnsFit(g, cells)
  {
    x.rows.Keys == w.rows.Keys && (exists id :: id in w.rows && KeyOf(db, w.rows[id]) == shown) &&
    forall id :: id in w.rows ==>
      if KeyOf(db, w.rows[id]) == shown then CellsReplaced(db, g, cells, w.rows[id], x.rows[id])
      else x.rows[id] == w.rows[id]
  }

  /** An update that passed the guard. */
  lemma GuardedUpdate(db: Database, s: Statement, w: Table)
    requires s.Update? && ExecGuarded(db, s, w).Some?
    ensures var (shown, news) := (Values(db, s.key, s.params), Values(db, s.sets, s.params));
            shown.Some? && |shown.value| == |s.key| && news.Some? && |news.value| == |s.sets| &&
            RowsHit(w, s.key, shown.value) != {} &&
            ExecGuarded(db, s, w) == Some(Updated(w, RowsHit(w, s.key, shown.value), s.sets, news.value))
  {
    if Values(db, s.key, s.params).Some? { ValuesLength(db, s.key, s.params); }
    if Values(db, s.sets, s.params).Some? { ValuesLength(db, s.sets, s.params); }
    hide Values;
    hide RowsHit;
    hide Updated;
    hide Accepts;
  }

  /** Where an update keeps its parameters. */
  lemma UpdateParts(g: Grid, j: nat, cells: map<nat, Value>)
    requires g.Valid() && KeyFits(g) && j < |g.rows| && ColumnsFit(g, cells)
    ensures var (s, cols) := (UpdateOf(g, j, cells), Ascending(cells.Keys, |g.target|));
            AllEditable(g, cols) && (forall i :: 0 <= i < |cols| ==> cols[i] in cells) &&
            s.key == KeyBounds(g, |cols|) && s.sets == SetBounds(g, cols) &&
            s.params == CellParams(cells, cols) + KeyParams(g, j) && KeyParamsAt(g, j, |cols|, s.params)
  {
    var cols := Ascending(cells.Keys, |g.target|);
    ColsOf(g, cells.Keys);
    ColsIn(cells.Keys, |g.target|);
    var s := UpdateOf(g, j, cells);
    assert s.params == CellParams(cells, cols) + KeyParams(g, j);
    assert s.params[|cols|..|cols| + |g.pk|] == KeyParams(g, j);
  }

  lemma KeyNonNull(db: Database, g: Grid, j: nat, shown: seq<Datum>)
    requires g.Valid() && KeyFits(g) && KeyNamesFit(db, g) && j < |g.rows| && KeyShown(db, g, j, shown)
    ensures |db.keyNames| == |g.pk| == |shown|
    ensures forall k :: 0 <= k < |g.pk| ==> Col(g, g.pk[k]).name == db.keyNames[k] && shown[k] != Null
  {
  }

  lemma UpdateHitsKey(db: Database, g: Grid, e: Edits, j: nat, w: Table) returns (shown: seq<Datum>)
    requires Ready(g, e) && DistinctTargets(g) && KeyNamesFit(db, g) && j in e.changes && j < |g.rows|
    requires ColumnsFit(g, e.changes[j]) && ExecGuarded(db, UpdateOf(g, j, e.changes[j]), w).Some?
    ensures KeyShown(db, g, j, shown)
    ensures UpdatesKey(db, g, e.changes[j], shown, w, ExecGuarded(db, UpdateOf(g, j, e.changes[j]), w).value)
  {
    var cells := e.changes[j];
    var s := UpdateOf(g, j, cells);
    var cols := Ascending(cells.Keys, |g.target|);
    assert g.Valid() && KeyFits(g) && s.Update?;
    hide *;
    UpdateParts(g, j, cells);
    GuardedUpdate(db, s, w);
    shown := Values(db, s.key, s.params).value;
    FoundIsShown(db, g, j, |cols|, s.params, w);
    KeyNonNull(db, g, j, shown);
    var (hits, news) := (RowsHit(w, s.key, shown), Values(db, s.sets, s.params).value);
    forall id | id in w.rows
      ensures Matches(s.key, shown, w.rows[id]) <==> KeyOf(db, w.rows[id]) == shown
      ensures CellsReplaced(db, g, cells, w.rows[id], Assigned(s.sets, news, w.rows[id]))
    {
      KeyMatches(db, g, |cols|, shown, w.rows[id]);
      AssignReplacesAll(db, g, cells, KeyParams(g, j), w.rows[id]);
    }
    UpdatedByKey(db, g, cells, s, shown, news, w);
  }

  lemma UpdatedByKey(db: Database, g: Grid, cells: map<nat, Value>, s: Statement, shown: seq<Datum>, news: seq<Datum>, w: Table)
    requires s.Update? && |shown| == |s.key| && |news| == |s.sets| && ColumnsFit(g, cells)
    requires RowsHit(w, s.key, shown) != {}
    requires forall id :: id in w.rows ==> (Matches(s.key, shown, w.rows[id]) <==> KeyOf(db, w.rows[id]) == shown)
    requires forall id :: id in w.rows ==> CellsReplaced(db, g, cells, w.rows[id], Assigned(s.sets, news, w.rows[id]))
    ensures UpdatesKey(db, g, cells, shown, w, Updated(w, RowsHit(w, s.key, shown), s.sets, news))
  {
    hide Matches;
    hide KeyOf;
    hide CellsReplaced;
    hide Assigned;
    var id :| id in RowsHit(w, s.key, shown);
    assert id in w.rows;
  }

  /** A key nobody takes does not appear. */
  lemma AbsentUnlessTaken(db: Database, g: Grid, e: Edits, j: nat, w: Table, key: seq<Datum>)
    requires Ready(g, e) && DistinctTargets(g) && KeyNamesFit(db, g) && j in e.changes && j < |g.rows| && |key| == |g.pk|
    requires ColumnsFit(g, e.changes[j]) && ExecGuarded(db, UpdateOf(g, j, e.changes[j]), w).Some?
    requires Absent(db, w, key) && !TakesKey(db, g, e, j, key)
    ensures Absent(db, ExecGuarded(db, UpdateOf(g, j, e.changes[j]), w).value, key)
  {
    var x := ExecGuarded(db, UpdateOf(g, j, e.changes[j]), w).value;
    var shown := UpdateHitsKey(db, g, e, j, w);
    hide ExecGuarded;
    hide UpdateOf;
    forall id | id in x.rows ensures KeyOf(db, x.rows[id]) != key {
      if KeyOf(db, w.rows[id]) == shown {
        KeyReplaced(db, g, e, j, shown, w.rows[id], x.rows[id], key);
        if !ChangesKey(g, e, j) {
          UnchangedKeyIsShown(db, g, e, j, shown, key);
        }
      }
    }
  }

  lemma UnchangedKeyIsShown(db: Database, g: Grid, e: Edits, j: nat, shown: seq<Datum>, key: seq<Datum>)
    requires g.Valid() && KeyFits(g) && j < |g.rows| && j in e.changes && !ChangesKey(g, e, j) && KeyShown(db, g, j, shown)
    ensures KeyAfterIs(db, g, e, j, key) <==> key == shown
  {
    assert forall k: nat :: k < |g.pk| ==> KeyCellAfter(db, g, e, j, k) == Some(shown[k]);
  }

  /** The row that takes a key has it afterwards. */
  lemma TakenAppears(db: Database, g: Grid, e: Edits, j: nat, w: Table, key: seq<Datum>)
    requires Ready(g, e) && DistinctTargets(g) && KeyNamesFit(db, g) && j in e.changes && j < |g.rows|
    requires ColumnsFit(g, e.changes[j]) && ExecGuarded(db, UpdateOf(g, j, e.changes[j]), w).Some?
    requires TakesKey(db, g, e, j, key)
    ensures !Absent(db, ExecGuarded(db, UpdateOf(g, j, e.changes[j]), w).value, key)
  {
    var x := ExecGuarded(db, UpdateOf(g, j, e.changes[j]), w).value;
    var shown := UpdateHitsKey(db, g, e, j, w);
    hide ExecGuarded;
    hide UpdateOf;
    var id :| id in w.rows && KeyOf(db, w.rows[id]) == shown;
    KeyReplaced(db, g, e, j, shown, w.rows[id], x.rows[id], key);
    assert id in x.rows;
  }

  /** A row that is there stays, unless it is displayed as the row updated. */
  lemma OthersStay(db: Database, g: Grid, e: Edits, j: nat, w: Table, key: seq<Datum>)
    requires Ready(g, e) && DistinctTargets(g) && KeyNamesFit(db, g) && j in e.changes && j < |g.rows|
    requires ColumnsFit(g, e.changes[j]) && ExecGuarded(db, UpdateOf(g, j, e.changes[j]), w).Some?
    requires !Absent(db, w, key) && !KeyShown(db, g, j, key)
    ensures !Absent(db, ExecGuarded(db, UpdateOf(g, j, e.changes[j]), w).value, key)
  {
    var x := ExecGuarded(db, UpdateOf(g, j, e.changes[j]), w).value;
    var shown := UpdateHitsKey(db, g, e, j, w);
    hide ExecGuarded;
    hide UpdateOf;
    var id :| id in w.rows && KeyOf(db, w.rows[id]) == key;
    assert x.rows[id] == w.rows[id];
  }

  /** None of these rows takes the key ... */
  ghost predicate NoneTakes(db: Database, g: Grid, e: Edits, rs: seq<nat>, key: seq<Datum>)
    requires g.Valid() && KeyFits(g)
  {
    forall i :: 0 <= i < |rs| ==> !TakesKey(db, g, e, rs[i], key)
  }

  /** ... or is displayed with it. */
  ghost predicate NoneShows(db: Database, g: Grid, rs: seq<nat>, key: seq<Datum>)
    requires g.Valid() && KeyFits(g)
  {
    forall i :: 0 <= i < |rs| && rs[i] < |g.rows| ==> !KeyShown(db, g, rs[i], key)
  }

  /** Everything needed to update these rows one by one. */
  ghost predicate MayUpdate(db: Database, g: Grid, e: Edits, rs: seq<nat>, key: seq<Datum>) {
    Ready(g, e) && DistinctTargets(g) && g.Valid() && KeyFits(g) && KeyNamesFit(db, g) && RowsChanged(g, e, rs) &&
    |key| == |g.pk|
  }

  /** The first update, if all of them go through. */
  lemma FirstOf(db: Database, g: Grid, e: Edits, rs: seq<nat>, t: Table, key: seq<Datum>) returns (x: Table)
    requires rs != [] && MayUpdate(db, g, e, rs, key) && ExecAll(db, UpdatesOf(g, e, rs), t).Some?
    ensures MayUpdate(db, g, e, rs[1..], key) && rs[0] in e.changes && rs[0] < |g.rows| && ColumnsFit(g, e.changes[rs[0]])
    ensures ExecGuarded(db, UpdateOf(g, rs[0], e.changes[rs[0]]), t) == Some(x)
    ensures ExecAll(db, UpdatesOf(g, e, rs), t) == ExecAll(db, UpdatesOf(g, e, rs[1..]), x)
    ensures NoneTakes(db, g, e, rs, key) ==> !TakesKey(db, g, e, rs[0], key) && NoneTakes(db, g, e, rs[1..], key)
    ensures NoneShows(db, g, rs, key) ==> !KeyShown(db, g, rs[0], key) && NoneShows(db, g, rs[1..], key)
  {
    hide ColumnsFit;
    hide TakesKey;
    hide KeyShown;
    hide KeyNamesFit;
    hide Ready;
    hide DistinctTargets;
    hide KeyFits;
    UpdatesCons(g, e, rs);
    var ss := UpdatesOf(g, e, rs);
    hide UpdatesOf;
    hide UpdateOf;
    ExecStep(db, ss, t);
    hide ExecAll;
    x := ExecGuarded(db, ss[0], t).value;
    assert forall i :: 0 <= i < |rs[1..]| ==> rs[1..][i] == rs[i + 1];
  }

  lemma {:induction false} UpdatesKeepAbsent(db: Database, g: Grid, e: Edits, rs: seq<nat>, t: Table, key: seq<Datum>)
    requires MayUpdate(db, g, e, rs, key) && ExecAll(db, UpdatesOf(g, e, rs), t).Some? && Absent(db, t, key)
    requires NoneTakes(db, g, e, rs, key)
    ensures Absent(db, ExecAll(db, UpdatesOf(g, e, rs), t).value, key)
    decreases |rs|
  {
    if rs == [] {
      assert UpdatesOf(g, e, rs) == [];
    } else {
      hide *;
      var x := FirstOf(db, g, e, rs, t, key);
      MayUpdateMeans(db, g, e, rs, key);
      AbsentUnlessTaken(db, g, e, rs[0], t, key);
      UpdatesKeepAbsent(db, g, e, rs[1..], x, key);
    }
  }

  lemma MayUpdateMeans(db: Database, g: Grid, e: Edits, rs: seq<nat>, key: seq<Datum>)
    requires MayUpdate(db, g, e, rs, key)
    ensures Ready(g, e) && DistinctTargets(g) && g.Valid() && KeyFits(g) && KeyNamesFit(db, g) && |key| == |g.pk|
    ensures RowsChanged(g, e, rs)
  {
    hide Ready;
    hide DistinctTargets;
    hide KeyFits;
    hide KeyNamesFit;
    hide RowsChanged;
  }

  lemma {:induction false} UpdatesKeepPresent(db: Database, g: Grid, e: Edits, rs: seq<nat>, t: Table, key: seq<Datum>)
    requires MayUpdate(db, g, e, rs, key) && ExecAll(db, UpdatesOf(g, e, rs), t).Some? && !Absent(db, t, key)
    requires NoneShows(db, g, rs, key)
    ensures !Absent(db, ExecAll(db, UpdatesOf(g, e, rs), t).value, key)
    decreases |rs|
  {
    if rs == [] {
      assert UpdatesOf(g, e, rs) == [];
    } else {
      hide *;
      var x := FirstOf(db, g, e, rs, t, key);
      MayUpdateMeans(db, g, e, rs, key);
      OthersStay(db, g, e, rs[0], t, key);
      UpdatesKeepPresent(db, g, e, rs[1..], x, key);
    }
  }

  /** Once a row has taken the key, some row has it. */
  lemma {:induction false} UpdatesBringKey(db: Database, g: Grid, e: Edits, rs: seq<nat>, i: nat, t: Table, key: seq<Datum>)
    requires MayUpdate(db, g, e, rs, key) && ExecAll(db, UpdatesOf(g, e, rs), t).Some?
    requires i < |rs| && TakesKey(db, g, e, rs[i], key) && NoneShows(db, g, rs, key)
    ensures !Absent(db, ExecAll(db, UpdatesOf(g, e, rs), t).value, key)
    decreases |rs|
  {
    hide *;
    var x := FirstOf(db, g, e, rs, t, key);
    MayUpdateMeans(db, g, e, rs, key);
    if i == 0 {
      TakenAppears(db, g, e, rs[0], t, key);
      UpdatesKeepPresent(db, g, e, rs[1..], x, key);
    } else {
      UpdatesBringKey(db, g, e, rs[1..], i - 1, x, key);
    }
  }

  lemma DeleteKeepsAbsent(db: Database, s: Statement, t: Table, key: seq<Datum>)
    requires s.Delete? && Absent(db, t, key) && ExecGuarded(db, s, t).Some?
    ensures Absent(db, ExecGuarded(db, s, t).value, key)
  {
    hide KeyOf;
    hide Values;
    hide Accepts;
    hide RowsHit;
  }

  lemma {:induction false} DeletesKeepAbsent(db: Database, ss: seq<Statement>, t: Table, key: seq<Datum>)
    requires AllDeletes(ss) && Absent(db, t, key) && ExecAll(db, ss, t).Some?
    ensures Absent(db, ExecAll(db, ss, t).value, key)
    decreases |ss|
  {
    if ss != [] {
      hide Absent;
      hide ExecGuarded;
      DeleteKeepsAbsent(db, ss[0], t, key);
      DeletesKeepAbsent(db, ss[1..], ExecGuarded(db, ss[0], t).value, key);
    }
  }

  /** The statements before the update of the `k`-th changed row. */
  function Before(g: Grid, e: Edits, k: nat): seq<Statement>
    requires Ready(g, e) && k <= |ChangedRows(g, e)|
  {
    RowsFit(g, e);
    DeletesOf(g, DeletedRows(g, e)) + UpdatesOf(g, e, ChangedRows(g, e)[..k])
  }

  lemma BeforeIs(g: Grid, e: Edits, k: nat) returns (ss: seq<Statement>)
    requires Ready(g, e) && k <= |ChangedRows(g, e)|
    ensures AllDeletes(ss) && g.Valid() && KeyFits(g) && RowsChanged(g, e, ChangedRows(g, e)[..k])
    ensures Before(g, e, k) == ss + UpdatesOf(g, e, ChangedRows(g, e)[..k])
  {
    RowsFit(g, e);
    hide ChangedRows;
    hide DeletedRows;
    hide ColumnsFit;
    hide UpdatesOf;
    ss := DeletesOf(g, DeletedRows(g, e));
  }

  lemma BeforeParts(db: Database, g: Grid, e: Edits, k: nat, t: Table) returns (d: Table)
    requires Ready(g, e) && k <= |ChangedRows(g, e)| && ExecAll(db, Before(g, e, k), t).Some?
    ensures g.Valid() && KeyFits(g) && RowsChanged(g, e, ChangedRows(g, e)[..k])
    ensures exists ss :: ExecAll(db, ss, t) == Some(d) && AllDeletes(ss)
    ensures ExecAll(db, UpdatesOf(g, e, ChangedRows(g, e)[..k]), d) == ExecAll(db, Before(g, e, k), t)
  {
    hide *;
    var ss := BeforeIs(g, e, k);
    ExecAllJoins(db, ss, UpdatesOf(g, e, ChangedRows(g, e)[..k]), t);
    d := ExecAll(db, ss, t).value;
  }

  ghost predicate AllDeletes(ss: seq<Statement>) {
    forall i :: 0 <= i < |ss| ==> ss[i].Delete?
  }

  /** Exactly when the key of a vanished row is back by the time its update
      runs: a row updated before it took the key. Rows updated before it are
      displayed with other keys; nothing else is assumed of the table. */
  lemma KeyIsBackIffTaken(db: Database, g: Grid, e: Edits, k: nat, t: Table, key: seq<Datum>)
    requires Ready(g, e) && DistinctTargets(g) && k < |ChangedRows(g, e)| && ChangedRows(g, e)[k] < |g.rows|
    requires ReadsAs(db, g, ChangedRows(g, e)[k], key) && Absent(db, t, key)
    requires NoneShows(db, g, ChangedRows(g, e)[..k], key) && ExecAll(db, Before(g, e, k), t).Some?
    ensures Absent(db, ExecAll(db, Before(g, e, k), t).value, key) <==> NoneTakes(db, g, e, ChangedRows(g, e)[..k], key)
  {
    var rs := ChangedRows(g, e)[..k];
    var d := AbsentBefore(db, g, e, k, t, key);
    hide *;
    if NoneTakes(db, g, e, rs, key) {
      UpdatesKeepAbsent(db, g, e, rs, d, key);
    } else {
      var i := Taker(db, g, e, rs, key);
      UpdatesBringKey(db, g, e, rs, i, d, key);
    }
  }

  /** Before the updates start the key is still nowhere. */
  lemma AbsentBefore(db: Database, g: Grid, e: Edits, k: nat, t: Table, key: seq<Datum>) returns (d: Table)
    requires Ready(g, e) && DistinctTargets(g) && k < |ChangedRows(g, e)| && ChangedRows(g, e)[k] < |g.rows|
    requires ReadsAs(db, g, ChangedRows(g, e)[k], key) && Absent(db, t, key) && ExecAll(db, Before(g, e, k), t).Some?
    ensures Absent(db, d, key) && MayUpdate(db, g, e, ChangedRows(g, e)[..k], key)
    ensures ExecAll(db, UpdatesOf(g, e, ChangedRows(g, e)[..k]), d) == ExecAll(db, Before(g, e, k), t)
  {
    ReadsFit(db, g, ChangedRows(g, e)[k], key);
    hide *;
    d := BeforeParts(db, g, e, k, t);
    MayUpdateIs(db, g, e, ChangedRows(g, e)[..k], key);
    var ss :| ExecAll(db, ss, t) == Some(d) && AllDeletes(ss);
    DeletesKeepAbsent(db, ss, t, key);
  }

  lemma MayUpdateIs(db: Database, g: Grid, e: Edits, rs: seq<nat>, key: seq<Datum>)
    requires Ready(g, e) && DistinctTargets(g) && g.Valid() && KeyFits(g) && KeyNamesFit(db, g) && |key| == |g.pk|
    requires RowsChanged(g, e, rs)
    ensures MayUpdate(db, g, e, rs, key)
  {
    hide Ready;
    hide DistinctTargets;
    hide KeyFits;
    hide KeyNamesFit;
    hide RowsChanged;
  }

  lemma Taker(db: Database, g: Grid, e: Edits, rs: seq<nat>, key: seq<Datum>) returns (i: nat)
    requires g.Valid() && KeyFits(g) && !NoneTakes(db, g, e, rs, key)
    ensures i < |rs| && TakesKey(db, g, e, rs[i], key)
  {
    hide TakesKey;
    i :| i < |rs| && TakesKey(db, g, e, rs[i], key);
  }

  lemma ReadsFit(db: Database, g: Grid, r: nat, key: seq<Datum>)
    requires g.Valid() && KeyFits(g) && r < |g.rows| && ReadsAs(db, g, r, key)
    ensures KeyNamesFit(db, g) && |key| == |g.pk| && KeyShown(db, g, r, key)
  {
  }

  lemma StopsAt(db: Database, ss: seq<Statement>, i: nat, t: Table, key: seq<Datum>)
    requires i < |ss| && FindsNothing(db, ss[i], key)
    requires ExecAll(db, ss[..i], t).Some? ==> Absent(db, ExecAll(db, ss[..i], t).value, key)
    ensures ExecAll(db, ss, t) == None
  {
    hide Absent;
    hide ExecGuarded;
    assert ss == ss[..i] + ss[i..] && ss[i..][0] == ss[i];
    ExecAllJoins(db, ss[..i], ss[i..], t);
  }

  lemma RowListed(g: Grid, e: Edits, r: nat)
    requires r < |g.rows|
    ensures r in e.deleted ==> r in DeletedRows(g, e)
    ensures r in e.changes && r !in e.deleted ==> r in ChangedRows(g, e)
  {
    AscendingIs(e.deleted, |g.rows|);
    AscendingIs(e.changes.Keys - e.deleted, |g.rows|);
    hide Ascending;
  }

  lemma IndexIn(xs: seq<nat>, x: nat) returns (i: nat)
    requires x in xs
    ensures i < |xs| && xs[i] == x
  {
    i :| 0 <= i < |xs| && xs[i] == x;
  }

  lemma InThreeParts(a: seq<Statement>, b: seq<Statement>, c: seq<Statement>)
    ensures forall i :: 0 <= i < |a| ==> (a + b + c)[i] == a[i]
    ensures forall k :: 0 <= k < |b| ==> (a + b + c)[|a| + k] == b[k]
  {
  }

  /** Where the statement for each row stands. */
  lemma StatementsInOrder(g: Grid, e: Edits)
    requires Ready(g, e)
    ensures var (ds, us, ss) := (DeletedRows(g, e), ChangedRows(g, e), Statements(g, e));
            |ds| + |us| <= |ss| && RowsChanged(g, e, us) &&
            (forall i :: 0 <= i < |ds| ==> ds[i] < |g.rows| && ss[i] == DeleteOf(g, ds[i])) &&
            (forall k :: 0 <= k < |us| ==> ss[|ds| + k] == UpdateOf(g, us[k], e.changes[us[k]]))
  {
    RowsFit(g, e);
    hide DeletedRows;
    hide ChangedRows;
    hide Normal;
    var (ds, us) := (DeletedRows(g, e), ChangedRows(g, e));
    InThreeParts(DeletesOf(g, ds), UpdatesOf(g, e, us), InsertsOf(g, e.inserted));
    assert Statements(g, e) == DeletesOf(g, ds) + UpdatesOf(g, e, us) + InsertsOf(g, e.inserted);
    hide Statements;
    hide DeleteOf;
    hide UpdateOf;
    hide InsertsOf;
    hide KeyFits;
  }

  lemma DeletedRowStops(db: Database, g: Grid, e: Edits, t: Table, r: nat, key: seq<Datum>)
    requires Ready(g, e) && r < |g.rows| && r in e.deleted && ReadsAs(db, g, r, key) && Absent(db, t, key)
    ensures ExecAll(db, Statements(g, e), t) == None
  {
    var (ds, ss) := (DeletedRows(g, e), Statements(g, e));
    StatementsInOrder(g, e);
    RowListed(g, e, r);
    assert g.Valid() && KeyFits(g);
    hide DeletedRows;
    hide ChangedRows;
    hide Statements;
    var i := IndexIn(ds, r);
    assert AllDeletes(ss[..i]);
    assert ss[i] == DeleteOf(g, r);
    hide *;
    DeleteFindsNothing(db, g, r, key);
    if ExecAll(db, ss[..i], t).Some? {
      DeletesKeepAbsent(db, ss[..i], t, key);
    }
    StopsAt(db, ss, i, t, key);
  }

  lemma ChangedRowAt(g: Grid, e: Edits, k: nat)
    requires Ready(g, e) && k < |ChangedRows(g, e)|
    ensures ChangedRows(g, e)[k] in e.changes && ChangedRows(g, e)[k] < |g.rows| && g.Valid() && KeyFits(g)
    ensures ColumnsFit(g, e.changes[ChangedRows(g, e)[k]])
    ensures |DeletedRows(g, e)| + k < |Statements(g, e)|
    ensures Statements(g, e)[|DeletedRows(g, e)| + k] == UpdateOf(g, ChangedRows(g, e)[k], e.changes[ChangedRows(g, e)[k]])
    ensures Statements(g, e)[..|DeletedRows(g, e)| + k] == Before(g, e, k)
  {
    RowsFit(g, e);
    StatementsInOrder(g, e);
    var (ds, us) := (DeletedRows(g, e), ChangedRows(g, e));
    hide DeletedRows;
    hide ChangedRows;
    hide Normal;
    hide KeyFits;
    hide UpdateOf;
    hide DeleteOf;
    hide InsertOf;
    assert ColumnsFit(g, e.changes[us[k]]);
    var (a, b, c) := (DeletesOf(g, ds), UpdatesOf(g, e, us), InsertsOf(g, e.inserted));
    assert b[..k] == UpdatesOf(g, e, us[..k]);
    TakeOfThree(a, b, c, k);
  }

  lemma TakeOfThree(a: seq<Statement>, b: seq<Statement>, c: seq<Statement>, k: nat)
    requires k <= |b|
    ensures (a + b + c)[..|a| + k] == a + b[..k]
  {
  }

  lemma ChangedRowStops(db: Database, g: Grid, e: Edits, t: Table, k: nat, key: seq<Datum>)
    requires Ready(g, e) && DistinctTargets(g) && k < |ChangedRows(g, e)| && ChangedRows(g, e)[k] < |g.rows|
    requires ReadsAs(db, g, ChangedRows(g, e)[k], key) && Absent(db, t, key)
    requires NoneTakes(db, g, e, ChangedRows(g, e)[..k], key)
    ensures ExecAll(db, Statements(g, e), t) == None
  {
    hide *;
    var (r, i) := (ChangedRows(g, e)[k], |DeletedRows(g, e)| + k);
    ChangedRowAt(g, e, k);
    if ExecAll(db, Before(g, e, k), t).Some? {
      var d := AbsentBefore(db, g, e, k, t, key);
      UpdatesKeepAbsent(db, g, e, ChangedRows(g, e)[..k], d, key);
    }
    UpdateFindsNothing(db, g, r, e.changes[r], key);
    StopsAt(db, Statements(g, e), i, t, key);
  }

  /** The guard against vanished rows: when the key of a row to be deleted or
      updated is nowhere in the table, nothing is applied, unless a row updated
      before it takes that key. Nothing else is assumed of the table, and
      nothing at all of the changes when the row is to be deleted. */
  lemma VanishedRowStopsApply(db: Database, g: Grid, e: Edits, t: Table, r: nat, key: seq<Datum>)
    requires Ready(g, e) && DistinctTargets(g) && r < |g.rows| && (r in e.deleted || r in e.changes)
    requires ReadsAs(db, g, r, key) && Absent(db, t, key)
    requires r in e.deleted || forall j :: IsEarlier(e, j, r) ==> !TakesKey(db, g, e, j, key)
    ensures ExecAll(db, Statements(g, e), t) == None
  {
    if r in e.deleted {
      DeletedRowStops(db, g, e, t, r, key);
    } else {
      RowListed(g, e, r);
      var k := IndexIn(ChangedRows(g, e), r);
      EarlierRows(g, e, k);
      assert NoneTakes(db, g, e, ChangedRows(g, e)[..k], key) by {
        hide TakesKey;
      }
      hide *;
      ChangedRowStops(db, g, e, t, k, key);
    }
  }

  /** Row `j` is updated before row `r`. */
  ghost predicate IsEarlier(e: Edits, j: nat, r: nat) {
    j < r && j in e.changes && j !in e.deleted
  }

  lemma EarlierRows(g: Grid, e: Edits, k: nat)
    requires k < |ChangedRows(g, e)|
    ensures forall i :: 0 <= i < k ==> IsEarlier(e, ChangedRows(g, e)[..k][i], ChangedRows(g, e)[k])
  {
    AscendingIs(e.changes.Keys - e.deleted, |g.rows|);
    var us := ChangedRows(g, e);
    forall i | 0 <= i < k ensures IsEarlier(e, us[..k][i], us[k]) {
      assert us[i] in us && us[..k][i] == us[i];
    }
  }

  /** ... and exactly then the guard holds: the update of a vanished row finds
      no row if and only if no row updated before it takes its key. */
  lemma GuardHoldsIff(db: Database, g: Grid, e: Edits, k: nat, t: Table, key: seq<Datum>)
    requires Ready(g, e) && DistinctTargets(g) && k < |ChangedRows(g, e)| && ChangedRows(g, e)[k] < |g.rows|
    requires ReadsAs(db, g, ChangedRows(g, e)[k], key) && Absent(db, t, key)
    requires NoneShows(db, g, ChangedRows(g, e)[..k], key) && ExecAll(db, Before(g, e, k), t).Some?
    ensures |Statements(g, e)| > |DeletedRows(g, e)| + k
    ensures var s := Statements(g, e)[|DeletedRows(g, e)| + k];
            s.Update? && Values(db, s.key, s.params) == Some(key) && |key| == |s.key| &&
            (RowsHit(ExecAll(db, Before(g, e, k), t).value, s.key, key) == {} <==>
             NoneTakes(db, g, e, ChangedRows(g, e)[..k], key))
  {
    var r := ChangedRows(g, e)[k];
    ChangedRowAt(g, e, k);
    KeyIsBackIffTaken(db, g, e, k, t, key);
    var w := ExecAll(db, Before(g, e, k), t).value;
    assert UpdateOf(g, r, e.changes[r]).Update?;
    hide *;
    UpdateParts(g, r, e.changes[r]);
    LooksForKey(db, g, r, |Ascending(e.changes[r].Keys, |g.target|)|, UpdateOf(g, r, e.changes[r]).params, key, w);
  }

  /** The rows found by the key clause are those with the key. */
  lemma LooksForKey(db: Database, g: Grid, r: nat, n: nat, params: seq<Param>, key: seq<Datum>, w: Table)
    requires g.Valid() && KeyFits(g) && r < |g.rows| && ReadsAs(db, g, r, key) && KeyParamsAt(g, r, n, params)
    ensures Values(db, KeyBounds(g, n), params) == Some(key) && |key| == |KeyBounds(g, n)|
    ensures RowsHit(w, KeyBounds(g, n), key) == {} <==> Absent(db, w, key)
  {
    var bounds := KeyBounds(g, n);
    KeyValues(db, g, r, n, params, key, |g.pk|);
    assert bounds[..|g.pk|] == bounds && key[..|g.pk|] == key;
    forall id | id in w.rows ensures id in RowsHit(w, bounds, key) <==> KeyOf(db, w.rows[id]) == key {
      KeyMatches(db, g, n, key, w.rows[id]);
    }
    hide KeyOf;
    hide Matches;
    hide KeyParamsAt;
    if !Absent(db, w, key) {
      var id :| id in w.rows && KeyOf(db, w.rows[id]) == key;
      assert id in RowsHit(w, bounds, key);
    }
  }

  /** No pending change is on a key column. */
  ghost predicate KeysUntouched(db: Database, g: Grid, e: Edits)
    requires Ready(g, e)
  {
    forall r, c :: r in e.changes && c in e.changes[r] && g.Editable(c) ==> Col(g, c).name !in db.keyNames
  }

  /** In particular, without changes on key columns the guard always holds. */
  lemma UntouchedKeysAreGuarded(db: Database, g: Grid, e: Edits, t: Table, r: nat, key: seq<Datum>)
    requires Ready(g, e) && DistinctTargets(g) && r < |g.rows| && (r in e.deleted || r in e.changes)
    requires ReadsAs(db, g, r, key) && Absent(db, t, key) && KeysUntouched(db, g, e)
    ensures ExecAll(db, Statements(g, e), t) == None
  {
    ReadsFit(db, g, r, key);
    forall j ensures !TakesKey(db, g, e, j, key) {
      KeyStays(db, g, e, j);
    }
    hide *;
    VanishedRowStopsApply(db, g, e, t, r, key);
  }

  lemma KeyStays(db: Database, g: Grid, e: Edits, j: nat)
    requires Ready(g, e) && KeyNamesFit(db, g) && KeysUntouched(db, g, e)
    ensures !ChangesKey(g, e, j)
  {
  }

  /** A one-column example: text converts to its length. */
  const KEY := ColumnInfo("k", 0, "int", true)
  const LENGTHS := Database((_, s) => Some(Data(|s|)), (given, _) => given, _ => true, ["k"])

  function OneRow(n: nat): Table {
    Table(map[7 := map["k" := Data(n)]], 8)
  }

  function KeyGrid(): Grid {
    Grid([[Some("aa")], [Some("a")]], [0, 1], [Some(KEY)], [0])
  }

  lemma OneValue(col: ColumnInfo, params: seq<Param>, n: nat, text: string)
    requires 1 <= n <= |params| && params[n - 1] == TextParam(text)
    ensures Values(LENGTHS, [Bound(col, n)], params) == Some([Data(|text|)])
  {
    var bounds := [Bound(col, n)];
    assert bounds[..0] == [] && [] + [Data(|text|)] == [Data(|text|)];
  }

  /** A statement's key clause finds row `id` of the table. */
  ghost predicate Finds(db: Database, bounds: seq<Bound>, params: seq<Param>, w: Table, id: nat) {
    var values := Values(db, bounds, params);
    values.Some? && |values.value| == |bounds| && id in RowsHit(w, bounds, values.value)
  }

  /** The rows found are those whose key the displayed key cells read as. */
  lemma FindsIffReadsAs(db: Database, g: Grid, r: nat, n: nat, params: seq<Param>, w: Table, id: nat)
    requires g.Valid() && KeyFits(g) && KeyNamesFit(db, g) && r < |g.rows| && KeyParamsAt(g, r, n, params) && id in w.rows
    ensures Finds(db, KeyBounds(g, n), params, w, id) <==> KeyShown(db, g, r, KeyOf(db, w.rows[id]))
  {
    var (bounds, key) := (KeyBounds(g, n), KeyOf(db, w.rows[id]));
    if Finds(db, bounds, params, w, id) {
      var values := Values(db, bounds, params).value;
      FoundIsShown(db, g, r, n, params, w);
      KeyMatches(db, g, n, values, w.rows[id]);
    }
    if KeyShown(db, g, r, key) {
      KeyValues(db, g, r, n, params, key, |g.pk|);
      assert bounds[..|g.pk|] == bounds && key[..|g.pk|] == key;
      KeyMatches(db, g, n, key, w.rows[id]);
    }
  }

  /** The key cells of row `r` display the key of a table row: NULL as NULL,
      anything else as a text that converts back. */
  ghost predicate KeyDisplayed(db: Database, g: Grid, r: nat, row: Row)
    requires g.Valid() && KeyFits(g) && r < |g.rows|
  {
    forall k :: 0 <= k < |g.pk| ==>
      var (c, cell) := (g.pk[k], g.rows[r][g.pk[k]]);
      CellValue(db, g, c, cell) == Some(Field(row, Col(g, c).name)) && (cell.None? <==> Field(row, Col(g, c).name) == Null)
  }

  ghost predicate NoNullKey(db: Database, row: Row) {
    forall k :: 0 <= k < |db.keyNames| ==> Field(row, db.keyNames[k]) != Null
  }

  lemma ShownIffNoNull(db: Database, g: Grid, r: nat, row: Row)
    requires g.Valid() && KeyFits(g) && KeyNamesFit(db, g) && r < |g.rows| && KeyDisplayed(db, g, r, row)
    ensures KeyShown(db, g, r, KeyOf(db, row)) <==> NoNullKey(db, row)
  {
    var key := KeyOf(db, row);
    assert forall k :: 0 <= k < |g.pk| ==> key[k] == Field(row, db.keyNames[k]);
    if NoNullKey(db, row) {
      forall k | 0 <= k < |g.pk|
        ensures key[k] != Null && db.convert(Col(g, g.pk[k]), KeyText(g.rows[r][g.pk[k]])) == Some(key[k])
      {
        assert Field(row, db.keyNames[k]) != Null;
      }
    }
  }

  /** The statement made for a row finds it if and only if no key column of
      the row is NULL: a NULL is matched as the text "NULL". */
  lemma OwnRowFoundIff(db: Database, g: Grid, r: nat, cells: map<nat, Value>, w: Table, id: nat)
    requires g.Valid() && KeyFits(g) && KeyNamesFit(db, g) && r < |g.rows| && ColumnsFit(g, cells)
    requires id in w.rows && KeyDisplayed(db, g, r, w.rows[id])
    ensures var s := DeleteOf(g, r); Finds(db, s.key, s.params, w, id) <==> NoNullKey(db, w.rows[id])
    ensures var s := UpdateOf(g, r, cells); Finds(db, s.key, s.params, w, id) <==> NoNullKey(db, w.rows[id])
  {
    assert KeyParams(g, r)[0..0 + |g.pk|] == KeyParams(g, r);
    assert KeyParamsAt(g, r, 0, KeyParams(g, r));
    assert DeleteOf(g, r).key == KeyBounds(g, 0) && DeleteOf(g, r).params == KeyParams(g, r);
    assert UpdateOf(g, r, cells).Update?;
    hide *;
    UpdateParts(g, r, cells);
    ShownIffNoNull(db, g, r, w.rows[id]);
    FindsIffReadsAs(db, g, r, 0, KeyParams(g, r), w, id);
    FindsIffReadsAs(db, g, r, |Ascending(cells.Keys, |g.target|)|, UpdateOf(g, r, cells).params, w, id);
  }

  function NullRow(): Row { map["k" := Null] }

  /** ... and then it may find another: with keys NULL and "NULL"-long in the
      table, deleting the row with the NULL key deletes the other one. */
  lemma NullKeyHitsAnother()
    ensures var g := Grid([[None]], [0], [Some(KEY)], [0]);
            var four: Row := map["k" := Data(4)];
            g.Valid() && KeyFits(g) && KeyDisplayed(LENGTHS, g, 0, NullRow()) &&
            ExecGuarded(LENGTHS, DeleteOf(g, 0), Table(map[7 := NullRow(), 8 := four], 9)) == Some(Table(map[7 := NullRow()], 9))
  {
    var g := Grid([[None]], [0], [Some(KEY)], [0]);
    var four: Row := map["k" := Data(4)];
    var (t, u) := (Table(map[7 := NullRow(), 8 := four], 9), Table(map[7 := NullRow()], 9));
    assert g.Editable(0) && KeyFits(g);
    assert DeleteOf(g, 0) == Delete([Bound(KEY, 1)], [TextParam("NULL")]);
    OneValue(KEY, [TextParam("NULL")], 1, "NULL");
    hide Values;
    var hits := RowsHit(t, [Bound(KEY, 1)], [Data(4)]);
    assert Field(NullRow(), "k") == Null && Field(four, "k") == Data(4) && |"NULL"| == 4;
    assert !Matches([Bound(KEY, 1)], [Data(4)], NullRow()) && Matches([Bound(KEY, 1)], [Data(4)], four);
    assert hits == {8};
    assert t.rows - hits == u.rows;
    assert Accepts(LENGTHS, u);
  }

  lemma KeyGridFits(text: string)
    ensures KeyGrid().Valid() && KeyFits(KeyGrid()) && ColumnsFit(KeyGrid(), map[0 := Some(text)])
    ensures AllEditable(KeyGrid(), [0])
  {
    assert KeyGrid().Editable(0);
  }

  lemma UpdateIs(g: Grid, row: nat, cells: map<nat, Value>, cols: seq<nat>)
    requires g.Valid() && KeyFits(g) && row < |g.rows| && ColumnsFit(g, cells)
    requires Ascending(cells.Keys, |g.target|) == cols && AllEditable(g, cols)
    requires forall i :: 0 <= i < |cols| ==> cols[i] in cells
    ensures UpdateOf(g, row, cells) ==
            Update(SetBounds(g, cols), KeyBounds(g, |cols|), CellParams(cells, cols) + KeyParams(g, row))
  {
  }

  lemma RenameParts(row: nat, text: string)
    requires row < 2 && KeyGrid().Valid() && KeyFits(KeyGrid()) && AllEditable(KeyGrid(), [0])
    ensures SetBounds(KeyGrid(), [0]) == [Bound(KEY, 1)] && KeyBounds(KeyGrid(), 1) == [Bound(KEY, 2)]
    ensures KeyParams(KeyGrid(), row) == [TextParam(if row == 0 then "aa" else "a")]
    ensures CellParams(map[0 := Some(text)], [0]) == [TextParam(text)]
  {
  }

  lemma RenameText(row: nat, text: string)
    requires row < 2
    ensures KeyGrid().Valid() && KeyFits(KeyGrid()) && ColumnsFit(KeyGrid(), map[0 := Some(text)])
    ensures |KeyGrid().rows| == 2
    ensures UpdateOf(KeyGrid(), row, map[0 := Some(text)]) ==
            Update([Bound(KEY, 1)], [Bound(KEY, 2)], [TextParam(text), TextParam(if row == 0 then "aa" else "a")])
  {
    var (g, cells) := (KeyGrid(), map[0 := Some(text)]);
    assert cells.Keys == {0} && |g.target| == 1 && |g.rows| == 2;
    assert Ascending({0}, 0) == [] && Ascending({0}, 1) == [0];
    hide *;
    KeyGridFits(text);
    RenameParts(row, text);
    UpdateIs(g, row, cells, [0]);
  }

  lemma RenameKey(text: string, key: string)
    ensures ExecGuarded(LENGTHS, Update([Bound(KEY, 1)], [Bound(KEY, 2)], [TextParam(text), TextParam(key)]), OneRow(|key|)) ==
            Some(OneRow(|text|))
  {
    var params := [TextParam(text), TextParam(key)];
    OneValue(KEY, params, 1, text);
    OneValue(KEY, params, 2, key);
    var (t, u) := (OneRow(|key|), OneRow(|text|));
    hide Values;
    var hits := RowsHit(t, [Bound(KEY, 2)], [Data(|key|)]);
    assert Matches([Bound(KEY, 2)], [Data(|key|)], t.rows[7]);
    assert hits == {7};
    var bounds := [Bound(KEY, 1)];
    assert bounds[..0] == [];
    assert Assigned(bounds, [Data(|text|)], t.rows[7]) == u.rows[7];
    assert Updated(t, hits, bounds, [Data(|text|)]).rows == u.rows;
    assert Accepts(LENGTHS, u);
  }

  lemma ExecTwo(db: Database, a: Statement, b: Statement, t: Table, u: Table, v: Table)
    requires ExecGuarded(db, a, t) == Some(u) && ExecGuarded(db, b, u) == Some(v)
    ensures ExecAll(db, [a, b], t) == Some(v)
  {
    hide ExecGuarded;
    assert [a, b][1..] == [b] && [b][1..] == [];
    assert ExecAll(db, [b], u) == Some(v);
  }

  function KeyEdits(): Edits {
    Edits(map[0 := map[0 := Some("a")], 1 := map[0 := Some("aaa")]], {}, [], None)
  }

  lemma ExampleChange(row: nat, text: string)
    requires row < |KeyGrid().rows| && |text| != if row == 0 then 2 else 1
    ensures RealChange(KeyGrid(), row, map[0 := Some(text)])
  {
    var cells: map<nat, Value> := map[0 := Some(text)];
    assert 0 in cells;
  }

  lemma ExampleReady()
    ensures Ready(KeyGrid(), KeyEdits()) && |KeyGrid().rows| == 2
    ensures ReadsAs(LENGTHS, KeyGrid(), 1, [Data(1)]) && Absent(LENGTHS, OneRow(2), [Data(1)])
  {
    KeyGridFits("");
    ExampleChange(0, "a");
    ExampleChange(1, "aaa");
    hide RealChange;
    assert KeyOf(LENGTHS, OneRow(2).rows[7]) == [Data(2)];
  }

  lemma ExampleRows(g: Grid, e: Edits)
    requires |g.rows| == 2 && e.changes.Keys - e.deleted == {0, 1} && e.deleted == {}
    ensures DeletedRows(g, e) == [] && ChangedRows(g, e) == [0, 1]
  {
    assert Ascending({}, 0) == [] && Ascending({}, 1) == [] && Ascending({}, 2) == [];
    assert Ascending({0, 1}, 1) == [0] && Ascending({0, 1}, 2) == [0, 1];
  }

  lemma TwoUpdates(g: Grid, e: Edits)
    requires Ready(g, e) && |g.rows| == 2 && e.changes.Keys == {0, 1} && e.deleted == {} && e.inserted == []
    ensures ColumnsFit(g, e.changes[0]) && ColumnsFit(g, e.changes[1])
    ensures Statements(g, e) == [UpdateOf(g, 0, e.changes[0]), UpdateOf(g, 1, e.changes[1])]
  {
    assert e.changes.Keys - e.deleted == {0, 1};
    ExampleRows(g, e);
    hide DeletedRows;
    hide ChangedRows;
    StatementsInOrder(g, e);
    StatementCount(g, e);
    TwoFit(g, e);
    TwoElements(e.changes.Keys - e.deleted);
    hide *;
  }

  lemma TwoElements(s: set<nat>)
    requires s == {0, 1}
    ensures |s| == 2
  {
    assert s - {0} == {1};
  }

  lemma TwoFit(g: Grid, e: Edits)
    requires Ready(g, e) && e.changes.Keys == {0, 1}
    ensures ColumnsFit(g, e.changes[0]) && ColumnsFit(g, e.changes[1])
  {
    assert 0 in e.changes && 1 in e.changes;
    assert RealChange(g, 0, e.changes[0]) && RealChange(g, 1, e.changes[1]);
  }

  /** With a change on a key the guard can be fooled: row 1 of the grid has
      vanished from the table, row 0 takes over its key, and the update meant
      for row 1 goes to row 0. */
  lemma ChangedKeyFoolsGuard()
    ensures Ready(KeyGrid(), KeyEdits()) && |KeyGrid().rows| == 2 && 1 in KeyEdits().changes
    ensures ReadsAs(LENGTHS, KeyGrid(), 1, [Data(1)]) && Absent(LENGTHS, OneRow(2), [Data(1)])
    ensures ExecAll(LENGTHS, Statements(KeyGrid(), KeyEdits()), OneRow(2)) == Some(OneRow(3))
  {
    var (g, e) := (KeyGrid(), KeyEdits());
    assert e.changes.Keys == {0, 1} && e.deleted == {} && e.inserted == [] && 1 in e.changes;
    assert e.changes[0] == map[0 := Some("a")] && e.changes[1] == map[0 := Some("aaa")];
    assert |"a"| == 1 && |"aa"| == 2 && |"aaa"| == 3;
    hide *;
    ExampleReady();
    TwoUpdates(g, e);
    RenameText(0, "a");
    RenameText(1, "aaa");
    RenameKey("a", "aa");
    RenameKey("aaa", "a");
    ExecTwo(LENGTHS, UpdateOf(g, 0, e.changes[0]), UpdateOf(g, 1, e.changes[1]), OneRow(2), OneRow(1), OneRow(3));
  }
}
