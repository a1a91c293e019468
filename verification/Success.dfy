/** When the statements go through: run one by one against the primary key,
    they are refused exactly when a key is given out while another row still
    has it (`apply` in crates/sqail-ui/src/editing.rs:553-577). */
module SuccessSpec {
  import opened Prelude
  import opened ColumnSpec
  import opened EditSpec
  import opened StatementSpec
  import opened TableSpec
  import opened GuardSpec

  /** The primary key is the only constraint on the table. */
  ghost predicate KeysOnly(db: Database) {
    forall t: Table :: db.allows(t)
  }

  /** Every text becomes a value of its column. */
  ghost predicate Converts(db: Database, g: Grid, cells: map<nat, Value>)
    requires ColumnsFit(g, cells)
  {
    forall c :: c in cells ==> CellValue(db, g, c, cells[c]).Some?
  }

  /** The key of a changed row once its update has run. */
  function AfterKey(db: Database, g: Grid, e: Edits, r: nat): seq<Datum>
    requires g.Valid() && KeyFits(g) && r < |g.rows| && r in e.changes
  {
    seq(|g.pk|, k requires 0 <= k < |g.pk| =>
      var v := KeyCellAfter(db, g, e, r, k);
      if v.Some? then v.value else Null)
  }

  /** Row `id` of the table is updated before row `r` of the grid. */
  ghost predicate DoneBefore(e: Edits, ids: seq<nat>, r: nat, id: nat) {
    exists j: nat :: j < |ids| && IsEarlier(e, j, r) && ids[j] == id
  }

  /** The update of row `r` fits: its texts convert, its key is not one that a
      row updated before it was given, and no row that still has its old key,
      because it is updated later or not at all, has this one. */
  ghost predicate UpdateFits(db: Database, g: Grid, e: Edits, ids: seq<nat>, t: Table, r: nat)
    requires g.Valid() && KeyFits(g) && |ids| == |g.rows| && r < |g.rows| && ChangeFits(g, e, r)
  {
    Converts(db, g, e.changes[r]) &&
    (forall j: nat :: j < |ids| && IsEarlier(e, j, r) ==> AfterKey(db, g, e, j) != AfterKey(db, g, e, r)) &&
    (forall id :: id in t.rows && id != ids[r] && !IsDeleted(e, ids, id) && !DoneBefore(e, ids, r, id) ==>
       KeyOf(db, t.rows[id]) != AfterKey(db, g, e, r))
  }

  /** No other row has this key. */
  ghost predicate FreeFor(db: Database, w: Table, id: nat, key: seq<Datum>) {
    forall other :: other in w.rows && other != id ==> KeyOf(db, w.rows[other]) != key
  }

  lemma {:induction false} ValuesExistIff(db: Database, bounds: seq<Bound>, params: seq<Param>)
    ensures Values(db, bounds, params).Some? <==>
            forall k :: 0 <= k < |bounds| ==> ParamValue(db, bounds[k].col, params, bounds[k].n).Some?
  {
    if bounds != [] {
      var n := |bounds| - 1;
      ValuesExistIff(db, bounds[..n], params);
      hide ParamValue;
      assert forall k :: 0 <= k < n ==> bounds[..n][k] == bounds[k];
    }
  }

  lemma SetParam(db: Database, g: Grid, cells: map<nat, Value>, cols: seq<nat>, more: seq<Param>, i: nat)
    requires AllEditable(g, cols) && (forall k :: 0 <= k < |cols| ==> cols[k] in cells) && i < |cols|
    ensures |SetBounds(g, cols)| == |cols| && g.Editable(cols[i])
    ensures var (bound, params) := (SetBounds(g, cols)[i], CellParams(cells, cols) + more);
            ParamValue(db, bound.col, params, bound.n) == CellValue(db, g, cols[i], cells[cols[i]])
  {
    var params := CellParams(cells, cols) + more;
    assert params[i] == ValueParam(cells[cols[i]]);
  }

  /** The new values of a row exist exactly if all its texts convert. */
  lemma SetsConvertIff(db: Database, g: Grid, cells: map<nat, Value>, more: seq<Param>)
    requires ColumnsFit(g, cells)
    requires var cols := Ascending(cells.Keys, |g.target|);
             AllEditable(g, cols) && forall i :: 0 <= i < |cols| ==> cols[i] in cells
    ensures var cols := Ascending(cells.Keys, |g.target|);
            Values(db, SetBounds(g, cols), CellParams(cells, cols) + more).Some? <==> Converts(db, g, cells)
  {
    var cols := Ascending(cells.Keys, |g.target|);
    var (bounds, params) := (SetBounds(g, cols), CellParams(cells, cols) + more);
    ValuesExistIff(db, bounds, params);
    ColumnsListed(g, cells);
    hide Ascending;
    hide ParamValue;
    hide CellValue;
    hide Values;
    forall i: nat | i < |cols|
      ensures ParamValue(db, bounds[i].col, params, bounds[i].n) == CellValue(db, g, cols[i], cells[cols[i]])
    {
      SetParam(db, g, cells, cols, more, i);
    }
    if Values(db, bounds, params).Some? {
      forall c | c in cells ensures CellValue(db, g, c, cells[c]).Some? {
        assert c in cols;
        var i :| 0 <= i < |cols| && cols[i] == c;
      }
    }
  }

  lemma ColumnsListed(g: Grid, cells: map<nat, Value>)
    requires ColumnsFit(g, cells)
    ensures forall c :: c in cells ==> c in Ascending(cells.Keys, |g.target|)
  {
    AscendingIs(cells.Keys, |g.target|);
  }

  /** Keys stay unique exactly if the one row's new key is nobody else's. */
  lemma UniqueIff(db: Database, w: Table, id: nat, x: Table)
    requires UniqueKeys(db, w) && id in w.rows && x.rows.Keys == w.rows.Keys
    requires forall other :: other in w.rows && other != id ==> x.rows[other] == w.rows[other]
    ensures UniqueKeys(db, x) <==> FreeFor(db, w, id, KeyOf(db, x.rows[id]))
  {
    hide KeyOf;
    if UniqueKeys(db, x) {
      forall other | other in w.rows && other != id ensures KeyOf(db, w.rows[other]) != KeyOf(db, x.rows[id]) {
        assert KeyOf(db, x.rows[other]) != KeyOf(db, x.rows[id]);
      }
    }
  }

  /** An update whose key clause hits one row. */
  lemma UpdateExec(db: Database, s: Statement, w: Table, id: nat)
    requires s.Update?
    requires var values := Values(db, s.key, s.params);
             values.Some? && |values.value| == |s.key| && RowsHit(w, s.key, values.value) == {id}
    ensures var news := Values(db, s.sets, s.params);
            (news.Some? ==> |news.value| == |s.sets|) &&
            (ExecGuarded(db, s, w).Some? <==> news.Some? && Accepts(db, Updated(w, {id}, s.sets, news.value)))
  {
    if Values(db, s.sets, s.params).Some? { ValuesLength(db, s.sets, s.params); }
    hide Accepts;
    hide Updated;
    hide RowsHit;
    hide Values;
  }

  lemma UpdatedRow(w: Table, id: nat, sets: seq<Bound>, news: seq<Datum>)
    requires |sets| == |news| && id in w.rows
    ensures var x := Updated(w, {id}, sets, news);
            x.rows.Keys == w.rows.Keys && x.rows[id] == Assigned(sets, news, w.rows[id]) &&
            forall other :: other in w.rows && other != id ==> x.rows[other] == w.rows[other]
  {
    hide Assigned;
  }

  lemma KeysDecide(db: Database, t: Table)
    requires KeysOnly(db)
    ensures Accepts(db, t) <==> UniqueKeys(db, t)
  {
    hide UniqueKeys;
  }

  lemma UpdateGoesIff(db: Database, s: Statement, w: Table, id: nat)
    requires KeysOnly(db) && s.Update? && UniqueKeys(db, w) && id in w.rows
    requires var values := Values(db, s.key, s.params);
             values.Some? && |values.value| == |s.key| && RowsHit(w, s.key, values.value) == {id}
    ensures var news := Values(db, s.sets, s.params);
            (news.Some? ==> |news.value| == |s.sets|) &&
            (ExecGuarded(db, s, w).Some? <==>
             news.Some? && FreeFor(db, w, id, KeyOf(db, Assigned(s.sets, news.value, w.rows[id]))))
  {
    hide *;
    UpdateExec(db, s, w, id);
    var news := Values(db, s.sets, s.params);
    if news.Some? {
      var x := Updated(w, {id}, s.sets, news.value);
      UpdatedRow(w, id, s.sets, news.value);
      UniqueIff(db, w, id, x);
      KeysDecide(db, x);
    }
  }

  lemma ConvertedKey(db: Database, g: Grid, e: Edits, r: nat, shown: seq<Datum>)
    requires g.Valid() && KeyFits(g) && r < |g.rows| && ChangeFits(g, e, r) && KeyShown(db, g, r, shown)
    requires Converts(db, g, e.changes[r])
    ensures KeyAfterIs(db, g, e, r, AfterKey(db, g, e, r))
  {
  }

  /** The update of a row that is still as it was loaded goes through exactly
      if its texts convert and its key after it is free. */
  lemma RowUpdateIff(db: Database, g: Grid, e: Edits, ids: seq<nat>, t: Table, w: Table, r: nat)
    requires Ready(g, e) && DistinctTargets(g) && Loaded(db, g, ids, t) && KeysOnly(db)
    requires r < |g.rows| && ChangeFits(g, e, r) && UniqueKeys(db, w) && Present(ids, t, w, r)
    ensures ExecGuarded(db, UpdateOf(g, r, e.changes[r]), w).Some? <==>
            Converts(db, g, e.changes[r]) && FreeFor(db, w, ids[r], AfterKey(db, g, e, r))
  {
    var cells := e.changes[r];
    var s := UpdateOf(g, r, cells);
    var cols := Ascending(cells.Keys, |g.target|);
    assert g.Valid() && KeyFits(g) && ColumnsFit(g, cells) && s.Update?;
    LoadedRow(db, g, ids, t, w, r);
    hide *;
    UpdateParts(g, r, cells);
    KeyHitsItsRow(db, g, ids, t, w, r, |cols|, s.params);
    UpdateGoesIff(db, s, w, ids[r]);
    SetsConvertIff(db, g, cells, KeyParams(g, r));
    if Converts(db, g, cells) {
      var values := Values(db, s.sets, s.params).value;
      var shown := KeyOf(db, w.rows[ids[r]]);
      AssignReplacesAll(db, g, cells, KeyParams(g, r), w.rows[ids[r]]);
      var after := Assigned(s.sets, values, w.rows[ids[r]]);
      ConvertedKey(db, g, e, r, shown);
      AfterKeyLength(db, g, e, r);
      KeyReplaced(db, g, e, r, shown, w.rows[ids[r]], after, AfterKey(db, g, e, r));
    }
  }

  lemma AfterKeyLength(db: Database, g: Grid, e: Edits, r: nat)
    requires g.Valid() && KeyFits(g) && r < |g.rows| && ChangeFits(g, e, r)
    ensures r in e.changes && |AfterKey(db, g, e, r)| == |g.pk|
  {
  }

  lemma LoadedRow(db: Database, g: Grid, ids: seq<nat>, t: Table, w: Table, r: nat)
    requires g.Valid() && KeyFits(g) && Loaded(db, g, ids, t) && Present(ids, t, w, r) && r < |g.rows|
    ensures KeyNamesFit(db, g) && r < |ids| && ids[r] in w.rows && KeyShown(db, g, r, KeyOf(db, w.rows[ids[r]]))
  {
  }

  /** The updates before the one at index `k` are those of the earlier rows. */
  lemma DoneIsHit(g: Grid, e: Edits, ids: seq<nat>, k: nat, id: nat)
    requires k < |ChangedRows(g, e)| && |ids| == |g.rows|
    ensures Hit(ids, ChangedRows(g, e)[..k], id) <==> DoneBefore(e, ids, ChangedRows(g, e)[k], id)
  {
    AscendingIs(e.changes.Keys - e.deleted, |g.rows|);
    var us := ChangedRows(g, e);
    if Hit(ids, us[..k], id) {
      var i :| 0 <= i < k && us[..k][i] < |ids| && ids[us[..k][i]] == id;
      assert us[i] in us && IsEarlier(e, us[i], us[k]);
    }
    if DoneBefore(e, ids, us[k], id) {
      var j: nat :| j < |ids| && IsEarlier(e, j, us[k]) && ids[j] == id;
      EarlierAt(us, k, j);
    }
  }

  lemma EarlierAt(us: seq<nat>, k: nat, j: nat)
    requires Increasing(us) && k < |us| && j in us && j < us[k]
    ensures j in us[..k]
  {
    var i :| 0 <= i < |us| && us[i] == j;
    assert us[..k][i] == j;
  }

  /** A row updated before has its new key ... */
  lemma DoneHasAfterKey(db: Database, g: Grid, e: Edits, ids: seq<nat>, t: Table, w: Table, j: nat)
    requires Ready(g, e) && DistinctTargets(g) && Loaded(db, g, ids, t) && j < |g.rows| && ChangeFits(g, e, j)
    requires RowChanged(db, g, e, ids, j, t, w)
    ensures KeyOf(db, w.rows[ids[j]]) == AfterKey(db, g, e, j)
  {
    var shown := KeyOf(db, t.rows[ids[j]]);
    assert KeyShown(db, g, j, shown) && KeyNamesFit(db, g) && g.Valid();
    hide *;
    ChangeConverts(db, g, e.changes[j], t.rows[ids[j]], w.rows[ids[j]]);
    ConvertedKey(db, g, e, j, shown);
    AfterKeyLength(db, g, e, j);
    KeyReplaced(db, g, e, j, shown, t.rows[ids[j]], w.rows[ids[j]], AfterKey(db, g, e, j));
  }

  lemma ChangeConverts(db: Database, g: Grid, cells: map<nat, Value>, before: Row, after: Row)
    requires ColumnsFit(g, cells) && CellsReplaced(db, g, cells, before, after)
    ensures Converts(db, g, cells)
  {
  }

  /** Where the run stands: the deletes are done, and the first `k` updates. */
  ghost predicate DoneTo(db: Database, g: Grid, e: Edits, ids: seq<nat>, t: Table, d: Table, w: Table, k: nat) {
    Ready(g, e) && DistinctTargets(g) && g.Valid() && KeyFits(g) && Loaded(db, g, ids, t) && TouchedPresent(e, ids, t) &&
    k <= |ChangedRows(g, e)| && RowsChanged(g, e, ChangedRows(g, e)[..k]) &&
    Removed(ids, DeletedRows(g, e), t, d) && Changed(db, g, e, ids, ChangedRows(g, e)[..k], t, d, w)
  }

  lemma RowsNow(db: Database, g: Grid, e: Edits, ids: seq<nat>, t: Table, d: Table, w: Table, k: nat, id: nat)
    requires DoneTo(db, g, e, ids, t, d, w, k)
    ensures |ids| == |g.rows|
    ensures id in w.rows <==> id in t.rows && !IsDeleted(e, ids, id)
  {
    DeletedHits(g, e, ids, id);
    hide DeletedRows;
    hide ChangedRows;
    hide Hit;
    hide IsDeleted;
    hide RowChanged;
    hide KeyShown;
  }

  /** A row not updated yet has the key it was loaded with ... */
  lemma KeyUntilDone(db: Database, g: Grid, e: Edits, ids: seq<nat>, t: Table, d: Table, w: Table, k: nat, id: nat)
    requires DoneTo(db, g, e, ids, t, d, w, k) && k < |ChangedRows(g, e)| && id in w.rows
    requires !DoneBefore(e, ids, ChangedRows(g, e)[k], id)
    ensures id in t.rows && w.rows[id] == t.rows[id]
  {
    assert |ids| == |g.rows|;
    DoneIsHit(g, e, ids, k, id);
    hide DeletedRows;
    hide ChangedRows;
    hide Hit;
    hide RowChanged;
    hide DoneBefore;
    hide KeyShown;
  }

  /** ... and a row updated before has the one its edits give it. */
  lemma KeyOnceDone(db: Database, g: Grid, e: Edits, ids: seq<nat>, t: Table, d: Table, w: Table, k: nat, j: nat)
    requires DoneTo(db, g, e, ids, t, d, w, k) && k < |ChangedRows(g, e)|
    requires j < |ids| && IsEarlier(e, j, ChangedRows(g, e)[k])
    ensures g.Valid() && KeyFits(g) && j < |g.rows| && ids[j] in w.rows
    ensures KeyOf(db, w.rows[ids[j]]) == AfterKey(db, g, e, j)
  {
    hide *;
    DoneMeans(db, g, e, ids, t, d, w, k);
    EarlierIsChanged(db, g, e, ids, t, d, w, k, j);
    DoneHasAfterKey(db, g, e, ids, t, w, j);
  }

  lemma EarlierIsChanged(db: Database, g: Grid, e: Edits, ids: seq<nat>, t: Table, d: Table, w: Table, k: nat, j: nat)
    requires DoneTo(db, g, e, ids, t, d, w, k) && k < |ChangedRows(g, e)|
    requires j < |ids| && IsEarlier(e, j, ChangedRows(g, e)[k])
    ensures j in e.changes && j < |g.rows| && ColumnsFit(g, e.changes[j]) && ChangeFits(g, e, j)
    ensures RowChanged(db, g, e, ids, j, t, w) && ids[j] in w.rows
  {
    var us := ChangedRows(g, e);
    AscendingIs(e.changes.Keys - e.deleted, |g.rows|);
    EarlierAt(us, k, j);
    hide Ready;
    hide DistinctTargets;
    hide KeyFits;
    hide ColumnsFit;
    hide CellsReplaced;
    hide KeyShown;
    hide ChangedRows;
    hide DeletedRows;
    hide Hit;
    hide Removed;
    hide TouchedPresent;
    var i :| 0 <= i < k && us[..k][i] == j;
    assert RowChanged(db, g, e, ids, us[..k][i], t, w);
  }

  lemma DoneMeans(db: Database, g: Grid, e: Edits, ids: seq<nat>, t: Table, d: Table, w: Table, k: nat)
    requires DoneTo(db, g, e, ids, t, d, w, k)
    ensures Ready(g, e) && DistinctTargets(g) && g.Valid() && KeyFits(g) && Loaded(db, g, ids, t)
    ensures TouchedPresent(e, ids, t) && |ids| == |g.rows|
  {
    hide Ready;
    hide DistinctTargets;
    hide KeyFits;
    hide TouchedPresent;
  }

  lemma EarlierIsOther(db: Database, g: Grid, e: Edits, ids: seq<nat>, t: Table, r: nat, j: nat)
    requires g.Valid() && KeyFits(g) && Loaded(db, g, ids, t) && r < |ids| && j < |ids| && IsEarlier(e, j, r)
    ensures ids[j] != ids[r]
  {
    LoadedDistinct(db, g, ids, t);
  }

  lemma FreeMeansFits(db: Database, g: Grid, e: Edits, ids: seq<nat>, t: Table, d: Table, w: Table, k: nat)
    requires DoneTo(db, g, e, ids, t, d, w, k) && k < |ChangedRows(g, e)|
    requires g.Valid() && KeyFits(g) && |ids| == |g.rows|
    requires ChangedRows(g, e)[k] < |g.rows| && ChangeFits(g, e, ChangedRows(g, e)[k])
    requires var r := ChangedRows(g, e)[k];
             Converts(db, g, e.changes[r]) && FreeFor(db, w, ids[r], AfterKey(db, g, e, r))
    ensures UpdateFits(db, g, e, ids, t, ChangedRows(g, e)[k])
  {
    var r := ChangedRows(g, e)[k];
    var key := AfterKey(db, g, e, r);
    DoneMeans(db, g, e, ids, t, d, w, k);
    hide AfterKey;
    hide Converts;
    hide DoneTo;
    hide ChangedRows;
    hide KeyOf;
    hide KeyFits;
    hide Loaded;
    hide TouchedPresent;
    hide Ready;
    hide IsDeleted;
    hide DoneBefore;
    hide DistinctTargets;
    forall j: nat | j < |ids| && IsEarlier(e, j, r) ensures AfterKey(db, g, e, j) != key {
      KeyOnceDone(db, g, e, ids, t, d, w, k, j);
      EarlierIsOther(db, g, e, ids, t, r, j);
    }
    forall id | id in t.rows && id != ids[r] && !IsDeleted(e, ids, id) && !DoneBefore(e, ids, r, id)
      ensures KeyOf(db, t.rows[id]) != key
    {
      RowsNow(db, g, e, ids, t, d, w, k, id);
      KeyUntilDone(db, g, e, ids, t, d, w, k, id);
    }
  }

  lemma FitsMeansFree(db: Database, g: Grid, e: Edits, ids: seq<nat>, t: Table, d: Table, w: Table, k: nat)
    requires DoneTo(db, g, e, ids, t, d, w, k) && k < |ChangedRows(g, e)|
    requires g.Valid() && KeyFits(g) && |ids| == |g.rows|
    requires ChangedRows(g, e)[k] < |g.rows| && ChangeFits(g, e, ChangedRows(g, e)[k])
    requires UpdateFits(db, g, e, ids, t, ChangedRows(g, e)[k])
    ensures var r := ChangedRows(g, e)[k];
            Converts(db, g, e.changes[r]) && FreeFor(db, w, ids[r], AfterKey(db, g, e, r))
  {
    var r := ChangedRows(g, e)[k];
    var key := AfterKey(db, g, e, r);
    hide AfterKey;
    hide Converts;
    hide DoneTo;
    hide ChangedRows;
    hide KeyOf;
    hide KeyFits;
    hide IsDeleted;
    forall other | other in w.rows && other != ids[r] ensures KeyOf(db, w.rows[other]) != key {
      RowsNow(db, g, e, ids, t, d, w, k, other);
      if DoneBefore(e, ids, r, other) {
        var j: nat :| j < |ids| && IsEarlier(e, j, r) && ids[j] == other;
        KeyOnceDone(db, g, e, ids, t, d, w, k, j);
      } else {
        KeyUntilDone(db, g, e, ids, t, d, w, k, other);
      }
    }
  }

  /** The first `k` updates fit. */
  ghost predicate FitTo(db: Database, g: Grid, e: Edits, ids: seq<nat>, t: Table, k: nat)
    requires g.Valid() && KeyFits(g) && |ids| == |g.rows|
    requires k <= |ChangedRows(g, e)| && RowsChanged(g, e, ChangedRows(g, e))
  {
    forall m: nat :: m < k ==> UpdateFits(db, g, e, ids, t, ChangedRows(g, e)[m])
  }

  /** Everything the updates start from. */
  ghost predicate MayGo(db: Database, g: Grid, e: Edits, ids: seq<nat>, t: Table, d: Table) {
    Ready(g, e) && DistinctTargets(g) && g.Valid() && KeyFits(g) && Loaded(db, g, ids, t) && TouchedPresent(e, ids, t) &&
    KeysOnly(db) && UniqueKeys(db, d) && Removed(ids, DeletedRows(g, e), t, d) && |ids| == |g.rows| &&
    RowsChanged(g, e, ChangedRows(g, e)) && AllPresent(ids, t, d, ChangedRows(g, e)) && Increasing(ChangedRows(g, e))
  }

  lemma TakenRows(g: Grid, e: Edits, rs: seq<nat>, k: nat)
    requires g.Valid() && KeyFits(g) && RowsChanged(g, e, rs) && k < |rs|
    ensures RowsChanged(g, e, rs[..k]) && RowsChanged(g, e, rs[..k + 1]) && rs[k] < |g.rows| && ChangeFits(g, e, rs[k])
    ensures rs[k] in e.changes && ColumnsFit(g, e.changes[rs[k]])
    ensures UpdatesOf(g, e, rs[..k + 1]) == UpdatesOf(g, e, rs[..k]) + [UpdateOf(g, rs[k], e.changes[rs[k]])]
  {
    hide UpdateOf;
    hide KeyFits;
    hide ColumnsFit;
  }

  lemma ExecOne(db: Database, s: Statement, w: Table)
    ensures ExecAll(db, [s], w) == ExecGuarded(db, s, w)
  {
    hide ExecGuarded;
    assert [s][1..] == [];
  }

  lemma MayGoMeans(db: Database, g: Grid, e: Edits, ids: seq<nat>, t: Table, d: Table)
    requires MayGo(db, g, e, ids, t, d)
    ensures Ready(g, e) && DistinctTargets(g) && g.Valid() && KeyFits(g) && Loaded(db, g, ids, t) && TouchedPresent(e, ids, t)
    ensures KeysOnly(db) && UniqueKeys(db, d) && |ids| == |g.rows| && RowsChanged(g, e, ChangedRows(g, e))
  {
    hide Ready;
    hide DistinctTargets;
    hide KeyFits;
    hide Loaded;
    hide TouchedPresent;
    hide UniqueKeys;
    hide Removed;
    hide AllPresent;
    hide RowsChanged;
    hide ChangedRows;
    hide DeletedRows;
  }

  lemma PrefixIncreasing(ids: seq<nat>, t: Table, d: Table, us: seq<nat>, k: nat)
    requires Increasing(us) && AllPresent(ids, t, d, us) && k <= |us|
    ensures Increasing(us[..k]) && AllPresent(ids, t, d, us[..k])
  {
    hide Present;
  }

  /** The state reached by the first `k` updates. */
  lemma ReachedState(db: Database, g: Grid, e: Edits, ids: seq<nat>, t: Table, d: Table, k: nat)
    requires MayGo(db, g, e, ids, t, d) && g.Valid() && KeyFits(g) && k <= |ChangedRows(g, e)|
    requires RowsChanged(g, e, ChangedRows(g, e)[..k]) && ExecAll(db, UpdatesOf(g, e, ChangedRows(g, e)[..k]), d).Some?
    ensures var w := ExecAll(db, UpdatesOf(g, e, ChangedRows(g, e)[..k]), d).value;
            UniqueKeys(db, w) && DoneTo(db, g, e, ids, t, d, w, k)
  {
    var us := ChangedRows(g, e);
    PrefixIncreasing(ids, t, d, us, k);
    MayGoMeans(db, g, e, ids, t, d);
    assert Removed(ids, DeletedRows(g, e), t, d);
    hide *;
    UpdatesDo(db, g, e, ids, t, us[..k], d);
    DoneIs(db, g, e, ids, t, d, ExecAll(db, UpdatesOf(g, e, us[..k]), d).value, k);
  }

  lemma DoneIs(db: Database, g: Grid, e: Edits, ids: seq<nat>, t: Table, d: Table, w: Table, k: nat)
    requires Ready(g, e) && DistinctTargets(g) && g.Valid() && KeyFits(g) && Loaded(db, g, ids, t) && TouchedPresent(e, ids, t)
    requires k <= |ChangedRows(g, e)| && RowsChanged(g, e, ChangedRows(g, e)[..k])
    requires Removed(ids, DeletedRows(g, e), t, d) && Changed(db, g, e, ids, ChangedRows(g, e)[..k], t, d, w)
    ensures DoneTo(db, g, e, ids, t, d, w, k)
  {
    hide Ready;
    hide DistinctTargets;
    hide KeyFits;
    hide Loaded;
    hide TouchedPresent;
    hide Removed;
    hide Changed;
    hide RowsChanged;
    hide ChangedRows;
    hide DeletedRows;
  }

  /** The next row to update is still as it was loaded. */
  lemma NextPresent(db: Database, g: Grid, e: Edits, ids: seq<nat>, t: Table, d: Table, w: Table, k: nat)
    requires MayGo(db, g, e, ids, t, d) && DoneTo(db, g, e, ids, t, d, w, k) && k < |ChangedRows(g, e)|
    ensures Present(ids, t, w, ChangedRows(g, e)[k])
  {
    var us := ChangedRows(g, e);
    var r := us[k];
    assert Present(ids, t, d, r);
    assert d.rows.Keys == w.rows.Keys;
    MayGoMeans(db, g, e, ids, t, d);
    hide *;
    forall j: nat | j < |ids| && IsEarlier(e, j, r) ensures ids[j] != ids[r] {
      PresentIs(ids, t, d, r);
      EarlierIsOther(db, g, e, ids, t, r, j);
    }
    NotDone(e, ids, r);
    PresentIs(ids, t, d, r);
    KeyUntilDone(db, g, e, ids, t, d, w, k, ids[r]);
    IsPresent(ids, t, w, r);
  }

  lemma NotDone(e: Edits, ids: seq<nat>, r: nat)
    requires r < |ids| && forall j: nat :: j < |ids| && IsEarlier(e, j, r) ==> ids[j] != ids[r]
    ensures !DoneBefore(e, ids, r, ids[r])
  {
  }

  lemma PresentIs(ids: seq<nat>, t: Table, w: Table, r: nat)
    requires Present(ids, t, w, r)
    ensures r < |ids| && ids[r] in w.rows && ids[r] in t.rows
  {
  }

  lemma IsPresent(ids: seq<nat>, t: Table, w: Table, r: nat)
    requires r < |ids| && ids[r] in w.rows && ids[r] in t.rows && w.rows[ids[r]] == t.rows[ids[r]]
    ensures Present(ids, t, w, r)
  {
  }

  /** The `k`-th update goes through exactly if it fits. */
  lemma NextUpdateIff(db: Database, g: Grid, e: Edits, ids: seq<nat>, t: Table, d: Table, w: Table, k: nat)
    requires MayGo(db, g, e, ids, t, d) && DoneTo(db, g, e, ids, t, d, w, k) && UniqueKeys(db, w)
    requires g.Valid() && KeyFits(g) && |ids| == |g.rows| && k < |ChangedRows(g, e)|
    requires ChangedRows(g, e)[k] < |g.rows| && ChangeFits(g, e, ChangedRows(g, e)[k])
    ensures var r := ChangedRows(g, e)[k];
            r in e.changes && ColumnsFit(g, e.changes[r]) &&
            (ExecGuarded(db, UpdateOf(g, r, e.changes[r]), w).Some? <==> UpdateFits(db, g, e, ids, t, r))
  {
    var r := ChangedRows(g, e)[k];
    assert r in e.changes && ColumnsFit(g, e.changes[r]);
    hide *;
    MayGoMeans(db, g, e, ids, t, d);
    NextPresent(db, g, e, ids, t, d, w, k);
    RowUpdateIff(db, g, e, ids, t, w, r);
    if UpdateFits(db, g, e, ids, t, r) {
      FitsMeansFree(db, g, e, ids, t, d, w, k);
    }
    if Converts(db, g, e.changes[r]) && FreeFor(db, w, ids[r], AfterKey(db, g, e, r)) {
      FreeMeansFits(db, g, e, ids, t, d, w, k);
    }
  }

  /** The updates go through exactly as far as they fit. */
  lemma {:induction false} UpdatesGoIff(db: Database, g: Grid, e: Edits, ids: seq<nat>, t: Table, d: Table, k: nat)
    requires MayGo(db, g, e, ids, t, d) && g.Valid() && KeyFits(g) && |ids| == |g.rows|
    requires k <= |ChangedRows(g, e)| && RowsChanged(g, e, ChangedRows(g, e))
    ensures RowsChanged(g, e, ChangedRows(g, e)[..k])
    ensures ExecAll(db, UpdatesOf(g, e, ChangedRows(g, e)[..k]), d).Some? <==> FitTo(db, g, e, ids, t, k)
    decreases k
  {
    var us := ChangedRows(g, e);
    hide *;
    if k == 0 {
      NoUpdates(db, g, e, ids, t, d);
    } else {
      UpdatesGoIff(db, g, e, ids, t, d, k - 1);
      TakenRows(g, e, us, k - 1);
      FitOneMore(db, g, e, ids, t, k - 1);
      var s := UpdateOf(g, us[k - 1], e.changes[us[k - 1]]);
      ExecAllJoins(db, UpdatesOf(g, e, us[..k - 1]), [s], d);
      if ExecAll(db, UpdatesOf(g, e, us[..k - 1]), d).Some? {
        var w := ExecAll(db, UpdatesOf(g, e, us[..k - 1]), d).value;
        ReachedState(db, g, e, ids, t, d, k - 1);
        NextUpdateIff(db, g, e, ids, t, d, w, k - 1);
        ExecOne(db, s, w);
      }
    }
  }

  lemma NoUpdates(db: Database, g: Grid, e: Edits, ids: seq<nat>, t: Table, d: Table)
    requires g.Valid() && KeyFits(g) && |ids| == |g.rows| && RowsChanged(g, e, ChangedRows(g, e))
    ensures RowsChanged(g, e, ChangedRows(g, e)[..0]) && FitTo(db, g, e, ids, t, 0)
    ensures ExecAll(db, UpdatesOf(g, e, ChangedRows(g, e)[..0]), d) == Some(d)
  {
    assert UpdatesOf(g, e, ChangedRows(g, e)[..0]) == [];
  }

  lemma FitOneMore(db: Database, g: Grid, e: Edits, ids: seq<nat>, t: Table, k: nat)
    requires g.Valid() && KeyFits(g) && |ids| == |g.rows| && RowsChanged(g, e, ChangedRows(g, e)) && k < |ChangedRows(g, e)|
    requires ChangedRows(g, e)[k] < |g.rows| && ChangeFits(g, e, ChangedRows(g, e)[k])
    ensures FitTo(db, g, e, ids, t, k + 1) <==> FitTo(db, g, e, ids, t, k) && UpdateFits(db, g, e, ids, t, ChangedRows(g, e)[k])
  {
    hide UpdateFits;
    hide ChangedRows;
    hide KeyFits;
    hide ColumnsFit;
  }

  lemma FewerKeys(db: Database, w: Table, x: Table)
    requires UniqueKeys(db, w) && x.rows.Keys <= w.rows.Keys && forall id :: id in x.rows ==> x.rows[id] == w.rows[id]
    ensures UniqueKeys(db, x)
  {
    hide KeyOf;
  }

  /** A DELETE of a row that is there always goes through. */
  lemma DeleteGoes(db: Database, g: Grid, ids: seq<nat>, t: Table, w: Table, r: nat)
    requires g.Valid() && KeyFits(g) && Loaded(db, g, ids, t) && KeysOnly(db) && UniqueKeys(db, w) && Present(ids, t, w, r)
    ensures r < |g.rows| && r < |ids|
    ensures ExecGuarded(db, DeleteOf(g, r), w) == Some(w.(rows := w.rows - {ids[r]}))
    ensures UniqueKeys(db, w.(rows := w.rows - {ids[r]}))
  {
    var x := w.(rows := w.rows - {ids[r]});
    FewerKeys(db, w, x);
    KeysDecide(db, x);
    DeleteHitsItsRow(db, g, ids, t, w, r);
    hide Exec;
    hide UniqueKeys;
    hide DeleteOf;
  }

  lemma {:induction false} DeletesGo(db: Database, g: Grid, ids: seq<nat>, t: Table, rs: seq<nat>, w: Table)
    requires g.Valid() && KeyFits(g) && Loaded(db, g, ids, t) && KeysOnly(db) && UniqueKeys(db, w)
    requires AllPresent(ids, t, w, rs) && Increasing(rs) && forall i :: 0 <= i < |rs| ==> rs[i] < |g.rows|
    ensures ExecAll(db, DeletesOf(g, rs), w).Some?
    decreases |rs|
  {
    hide *;
    if rs == [] {
      NoDeletes(g);
      ExecNothing(db, DeletesOf(g, rs), w);
    } else {
      FirstPresent(ids, t, w, rs);
      DeleteGoes(db, g, ids, t, w, rs[0]);
      RemovalKeepsRest(db, g, ids, t, w, rs);
      IncreasingTail(rs);
      DeletesGo(db, g, ids, t, rs[1..], w.(rows := w.rows - {ids[rs[0]]}));
      DeletesCons(g, rs);
      ExecFirst(db, DeletesOf(g, rs), w);
    }
  }

  lemma ExecFirst(db: Database, ss: seq<Statement>, w: Table)
    requires ss != [] && ExecGuarded(db, ss[0], w).Some?
    ensures ExecAll(db, ss, w) == ExecAll(db, ss[1..], ExecGuarded(db, ss[0], w).value)
  {
    hide ExecGuarded;
  }

  /** The new rows fit: one after the other, each with texts that convert and,
      once the database has filled it in, a key that no row has. */
  ghost predicate InsertsFit(db: Database, g: Grid, news: seq<seq<Option<Value>>>, u: Table)
    requires forall i :: 0 <= i < |news| ==> NewRowFits(g, news[i])
    decreases |news|
  {
    news == [] ||
    exists given: Row :: GivenBy(db, g, news[0], given) && FreeFor(db, u, u.next, KeyOf(db, db.fill(given, u))) &&
                         InsertsFit(db, g, news[1..], WithRow(u, db.fill(given, u)))
  }

  /** What replacing cells gives is determined. */
  lemma ReplacedIsUnique(db: Database, g: Grid, cells: map<nat, Value>, before: Row, a: Row, b: Row)
    requires ColumnsFit(g, cells) && CellsReplaced(db, g, cells, before, a) && CellsReplaced(db, g, cells, before, b)
    ensures a == b
  {
    forall name ensures SameField(a, b, name) {
      if NamesColumn(g, cells.Keys, name) {
        var c :| c in cells.Keys && Col(g, c).name == name;
        assert c in cells;
      } else {
        assert SameField(before, a, name) && SameField(before, b, name);
      }
    }
    SameRow(a, b);
  }

  lemma SameRow(a: Row, b: Row)
    requires forall name :: SameField(a, b, name)
    ensures a == b
  {
    forall name ensures name in a <==> name in b {
      assert SameField(a, b, name);
    }
    forall name | name in a ensures a[name] == b[name] {
      assert SameField(a, b, name);
    }
  }

  /** An INSERT goes through exactly if the row's texts convert and its key is
      nobody's. */
  lemma InsertGoesIff(db: Database, g: Grid, row: seq<Option<Value>>, w: Table, given: Row)
    requires NewRowFits(g, row) && DistinctTargets(g) && KeysOnly(db) && UniqueKeys(db, w) && IdsBelowNext(w)
    requires GivenBy(db, g, row, given)
    ensures ExecGuarded(db, InsertOf(g, row), w).Some? <==> FreeFor(db, w, w.next, KeyOf(db, db.fill(given, w)))
    ensures ExecGuarded(db, InsertOf(g, row), w).Some? ==>
            ExecGuarded(db, InsertOf(g, row), w) == Some(WithRow(w, db.fill(given, w)))
  {
    var cells := Filled(row);
    var cols := Ascending(cells.Keys, |g.target|);
    ColsOf(g, cells.Keys);
    ColsIn(cells.Keys, |g.target|);
    assert CellParams(cells, cols) + [] == CellParams(cells, cols);
    var s := InsertOf(g, row);
    assert s == Insert(SetBounds(g, cols), CellParams(cells, cols));
    assert ColumnsFit(g, cells) && CellsReplaced(db, g, cells, map[], given);
    hide *;
    ChangeConverts(db, g, cells, map[], given);
    SetsConvertIff(db, g, cells, []);
    AssignReplacesAll(db, g, cells, [], map[]);
    var values := Values(db, SetBounds(g, cols), CellParams(cells, cols)).value;
    ReplacedIsUnique(db, g, cells, map[], given, Assigned(SetBounds(g, cols), values, map[]));
    InsertExec(db, s, w, given);
    AddedIff(db, w, db.fill(given, w));
  }

  lemma InsertExec(db: Database, s: Statement, w: Table, given: Row)
    requires s.Insert? && Values(db, s.cols, s.params).Some? && |Values(db, s.cols, s.params).value| == |s.cols|
    requires Assigned(s.cols, Values(db, s.cols, s.params).value, map[]) == given
    ensures ExecGuarded(db, s, w) ==
            if Accepts(db, WithRow(w, db.fill(given, w))) then Some(WithRow(w, db.fill(given, w))) else None
  {
    hide Accepts;
    hide Values;
    hide Assigned;
  }

  lemma AddedIff(db: Database, w: Table, row: Row)
    requires KeysOnly(db) && UniqueKeys(db, w) && IdsBelowNext(w)
    ensures Accepts(db, WithRow(w, row)) <==> FreeFor(db, w, w.next, KeyOf(db, row))
  {
    var x := WithRow(w, row);
    KeysDecide(db, x);
    assert x.rows[w.next] == row && forall id :: id in w.rows ==> id in x.rows && x.rows[id] == w.rows[id];
    hide KeyOf;
    hide Accepts;
    if UniqueKeys(db, x) {
      forall other | other in w.rows ensures KeyOf(db, w.rows[other]) != KeyOf(db, row) {
        assert KeyOf(db, x.rows[other]) != KeyOf(db, x.rows[w.next]);
      }
    }
  }

  lemma {:induction false} InsertsGoIff(db: Database, g: Grid, news: seq<seq<Option<Value>>>, w: Table)
    requires DistinctTargets(g) && KeysOnly(db) && UniqueKeys(db, w) && IdsBelowNext(w)
    requires forall i :: 0 <= i < |news| ==> NewRowFits(g, news[i])
    ensures ExecAll(db, InsertsOf(g, news), w).Some? <==> InsertsFit(db, g, news, w)
    decreases |news|
  {
    if news == [] {
      assert InsertsOf(g, news) == [];
    } else {
      var ss := InsertsOf(g, news);
      InsertsCons(g, news);
      hide *;
      if ExecAll(db, ss, w).Some? {
        ExecStep(db, ss, w);
        GuardedEffect(db, ss[0], w);
        var given := InsertGives(db, g, news[0], w);
        FirstInsert(db, g, news, w, given);
        InsertsGoIff(db, g, news[1..], WithRow(w, db.fill(given, w)));
        FitFirst(db, g, news, w, given);
      }
      if InsertsFit(db, g, news, w) {
        var given := FirstFits(db, g, news, w);
        FirstInsert(db, g, news, w, given);
        ExecFirst(db, ss, w);
        InsertsGoIff(db, g, news[1..], WithRow(w, db.fill(given, w)));
      }
    }
  }

  lemma InsertsCons(g: Grid, news: seq<seq<Option<Value>>>)
    requires news != [] && forall i :: 0 <= i < |news| ==> NewRowFits(g, news[i])
    ensures InsertsOf(g, news) != [] && InsertsOf(g, news)[0] == InsertOf(g, news[0])
    ensures InsertsOf(g, news)[1..] == InsertsOf(g, news[1..])
  {
    hide InsertOf;
    hide NewRowFits;
  }

  lemma FirstInsert(db: Database, g: Grid, news: seq<seq<Option<Value>>>, w: Table, given: Row)
    requires DistinctTargets(g) && KeysOnly(db) && UniqueKeys(db, w) && IdsBelowNext(w)
    requires news != [] && (forall i :: 0 <= i < |news| ==> NewRowFits(g, news[i])) && GivenBy(db, g, news[0], given)
    ensures ExecGuarded(db, InsertOf(g, news[0]), w).Some? <==> FreeFor(db, w, w.next, KeyOf(db, db.fill(given, w)))
    ensures var x := WithRow(w, db.fill(given, w));
            ExecGuarded(db, InsertOf(g, news[0]), w).Some? ==>
              ExecGuarded(db, InsertOf(g, news[0]), w) == Some(x) && UniqueKeys(db, x) && IdsBelowNext(x)
  {
    hide *;
    InsertGoesIff(db, g, news[0], w, given);
    if ExecGuarded(db, InsertOf(g, news[0]), w).Some? {
      GuardedUnique(db, InsertOf(g, news[0]), w);
      OneAppended(w, db.fill(given, w));
      AppendedBelow(w, WithRow(w, db.fill(given, w)), 1);
    }
  }

  lemma GuardedUnique(db: Database, s: Statement, w: Table)
    requires ExecGuarded(db, s, w).Some?
    ensures UniqueKeys(db, ExecGuarded(db, s, w).value)
  {
    hide UniqueKeys;
    hide Values;
    hide RowsHit;
    hide Updated;
    hide Assigned;
  }

  lemma FitFirst(db: Database, g: Grid, news: seq<seq<Option<Value>>>, u: Table, given: Row)
    requires news != [] && (forall i :: 0 <= i < |news| ==> NewRowFits(g, news[i])) && GivenBy(db, g, news[0], given)
    requires FreeFor(db, u, u.next, KeyOf(db, db.fill(given, u))) && InsertsFit(db, g, news[1..], WithRow(u, db.fill(given, u)))
    ensures InsertsFit(db, g, news, u)
  {
    hide FreeFor;
    hide KeyOf;
    hide GivenBy;
    hide NewRowFits;
  }

  lemma FirstFits(db: Database, g: Grid, news: seq<seq<Option<Value>>>, u: Table) returns (given: Row)
    requires news != [] && (forall i :: 0 <= i < |news| ==> NewRowFits(g, news[i])) && InsertsFit(db, g, news, u)
    ensures GivenBy(db, g, news[0], given) && FreeFor(db, u, u.next, KeyOf(db, db.fill(given, u)))
    ensures InsertsFit(db, g, news[1..], WithRow(u, db.fill(given, u)))
  {
    hide FreeFor;
    hide KeyOf;
    hide GivenBy;
    hide NewRowFits;
    given :| GivenBy(db, g, news[0], given) && FreeFor(db, u, u.next, KeyOf(db, db.fill(given, u))) &&
             InsertsFit(db, g, news[1..], WithRow(u, db.fill(given, u)));
  }

  /** The table with the edits done to its rows is determined, too. */
  lemma EditedIsUnique(db: Database, g: Grid, e: Edits, ids: seq<nat>, t: Table, u: Table, v: Table)
    requires Ready(g, e) && |ids| == |g.rows| && IsEdited(db, g, e, ids, t, u) && IsEdited(db, g, e, ids, t, v)
    ensures u == v
  {
    forall id | id in u.rows ensures id in v.rows && u.rows[id] == v.rows[id] {
      EditedRowIsUnique(db, g, e, ids, t, u, v, id);
    }
    assert forall id :: id in v.rows ==> id in u.rows;
    hide *;
    SameTable(u, v);
  }

  lemma SameTable(u: Table, v: Table)
    requires u.next == v.next && (forall id :: id in u.rows ==> id in v.rows && u.rows[id] == v.rows[id])
    requires forall id :: id in v.rows ==> id in u.rows
    ensures u == v
  {
    assert u.rows == v.rows;
  }

  lemma EditedRowIsUnique(db: Database, g: Grid, e: Edits, ids: seq<nat>, t: Table, u: Table, v: Table, id: nat)
    requires Ready(g, e) && |ids| == |g.rows| && IsEdited(db, g, e, ids, t, u) && IsEdited(db, g, e, ids, t, v)
    requires id in u.rows
    ensures id in v.rows && u.rows[id] == v.rows[id]
  {
    hide CellsReplaced;
    hide Ready;
    if id in ids {
      var r :| 0 <= r < |ids| && ids[r] == id;
      assert RowIsEdited(db, g, e, ids, t, u, r) && RowIsEdited(db, g, e, ids, t, v, r);
      if r in e.changes {
        ReplacedIsUnique(db, g, e.changes[r], t.rows[id], u.rows[id], v.rows[id]);
      }
    }
  }

  /** All pending changes fit. */
  ghost predicate UpdatesFit(db: Database, g: Grid, e: Edits, ids: seq<nat>, t: Table)
    requires g.Valid() && KeyFits(g) && |ids| == |g.rows|
  {
    forall r: nat :: r < |g.rows| && r !in e.deleted && ChangeFits(g, e, r) ==> UpdateFits(db, g, e, ids, t, r)
  }

  lemma AllFit(db: Database, g: Grid, e: Edits, ids: seq<nat>, t: Table)
    requires g.Valid() && KeyFits(g) && |ids| == |g.rows| && RowsChanged(g, e, ChangedRows(g, e))
    ensures UpdatesFit(db, g, e, ids, t) <==> FitTo(db, g, e, ids, t, |ChangedRows(g, e)|)
  {
    var us := ChangedRows(g, e);
    AscendingIs(e.changes.Keys - e.deleted, |g.rows|);
    hide UpdateFits;
    hide KeyFits;
    hide ColumnsFit;
    if UpdatesFit(db, g, e, ids, t) {
      forall m: nat | m < |us| ensures UpdateFits(db, g, e, ids, t, us[m]) {
        assert us[m] in us;
      }
    }
    if FitTo(db, g, e, ids, t, |us|) {
      forall r: nat | r < |g.rows| && r !in e.deleted && ChangeFits(g, e, r) ensures UpdateFits(db, g, e, ids, t, r) {
        assert r in us;
        var m :| 0 <= m < |us| && us[m] == r;
      }
    }
  }

  /** The deletes, and what the updates start from. */
  lemma DeletesFirst(db: Database, g: Grid, e: Edits, ids: seq<nat>, t: Table) returns (d: Table)
    requires Ready(g, e) && g.Valid() && KeyFits(g) && DistinctTargets(g) && Loaded(db, g, ids, t)
    requires TouchedPresent(e, ids, t) && UniqueKeys(db, t) && KeysOnly(db)
    ensures forall i :: 0 <= i < |DeletedRows(g, e)| ==> DeletedRows(g, e)[i] < |g.rows|
    ensures ExecAll(db, DeletesOf(g, DeletedRows(g, e)), t) == Some(d) && MayGo(db, g, e, ids, t, d)
  {
    assert |ids| == |g.rows|;
    hide *;
    RowsFit(g, e);
    RowsInOrder(db, g, e, ids, t);
    DeletesGo(db, g, ids, t, DeletedRows(g, e), t);
    DeletesDo(db, g, ids, t, DeletedRows(g, e), t);
    d := ExecAll(db, DeletesOf(g, DeletedRows(g, e)), t).value;
    KeptPresent(db, g, e, ids, t, d);
    MayGoIs(db, g, e, ids, t, d);
  }

  lemma MayGoIs(db: Database, g: Grid, e: Edits, ids: seq<nat>, t: Table, d: Table)
    requires Ready(g, e) && DistinctTargets(g) && g.Valid() && KeyFits(g) && Loaded(db, g, ids, t) && TouchedPresent(e, ids, t)
    requires KeysOnly(db) && UniqueKeys(db, d) && Removed(ids, DeletedRows(g, e), t, d) && |ids| == |g.rows|
    requires RowsChanged(g, e, ChangedRows(g, e)) && AllPresent(ids, t, d, ChangedRows(g, e)) && Increasing(ChangedRows(g, e))
    ensures MayGo(db, g, e, ids, t, d)
  {
    hide Ready;
    hide DistinctTargets;
    hide KeyFits;
    hide Loaded;
    hide TouchedPresent;
    hide UniqueKeys;
    hide Removed;
    hide AllPresent;
    hide RowsChanged;
    hide ChangedRows;
    hide DeletedRows;
  }

  /** Deletes and updates go through exactly if all changes fit, and then do
      what the edits mean. */
  lemma RowsGoIff(db: Database, g: Grid, e: Edits, ids: seq<nat>, t: Table)
    requires Ready(g, e) && g.Valid() && KeyFits(g) && DistinctTargets(g) && Loaded(db, g, ids, t)
    requires TouchedPresent(e, ids, t) && TableOk(db, t) && KeysOnly(db)
    ensures |ids| == |g.rows|
    ensures var v := ExecAll(db, Before(g, e, |ChangedRows(g, e)|), t);
            (v.Some? <==> UpdatesFit(db, g, e, ids, t)) &&
            (v.Some? ==> IsEdited(db, g, e, ids, t, v.value) && UniqueKeys(db, v.value) && IdsBelowNext(v.value))
  {
    var us := ChangedRows(g, e);
    assert |ids| == |g.rows| && UniqueKeys(db, t) && IdsBelowNext(t);
    assert us[..|us|] == us;
    BeforeAll(g, e);
    hide *;
    var d := DeletesFirst(db, g, e, ids, t);
    MayGoMeans(db, g, e, ids, t, d);
    ExecAllJoins(db, DeletesOf(g, DeletedRows(g, e)), UpdatesOf(g, e, us), t);
    UpdatesGoIff(db, g, e, ids, t, d, |us|);
    AllFit(db, g, e, ids, t);
    if ExecAll(db, UpdatesOf(g, e, us), d).Some? {
      var u := ExecAll(db, UpdatesOf(g, e, us), d).value;
      ReachedState(db, g, e, ids, t, d, |us|);
      DoneChanged(db, g, e, ids, t, d, u);
      EditsAreDone(db, g, e, ids, t, d, u);
      EditedBelow(db, g, e, ids, t, u);
    }
  }

  lemma BeforeAll(g: Grid, e: Edits)
    requires Ready(g, e)
    ensures g.Valid() && KeyFits(g) && RowsChanged(g, e, ChangedRows(g, e))
    ensures forall i :: 0 <= i < |DeletedRows(g, e)| ==> DeletedRows(g, e)[i] < |g.rows|
    ensures Before(g, e, |ChangedRows(g, e)|) == DeletesOf(g, DeletedRows(g, e)) + UpdatesOf(g, e, ChangedRows(g, e))
    ensures forall i :: 0 <= i < |e.inserted| ==> NewRowFits(g, e.inserted[i])
    ensures Statements(g, e) == Before(g, e, |ChangedRows(g, e)|) + InsertsOf(g, e.inserted)
  {
    RowsFit(g, e);
    assert ChangedRows(g, e)[..|ChangedRows(g, e)|] == ChangedRows(g, e);
    hide ChangedRows;
    hide DeletedRows;
    hide DeletesOf;
    hide UpdatesOf;
    hide InsertsOf;
    hide KeyFits;
    hide RealChange;
  }

  lemma DoneChanged(db: Database, g: Grid, e: Edits, ids: seq<nat>, t: Table, d: Table, u: Table)
    requires DoneTo(db, g, e, ids, t, d, u, |ChangedRows(g, e)|)
    ensures RowsChanged(g, e, ChangedRows(g, e))
    ensures Removed(ids, DeletedRows(g, e), t, d) && Changed(db, g, e, ids, ChangedRows(g, e), t, d, u)
  {
    assert ChangedRows(g, e)[..|ChangedRows(g, e)|] == ChangedRows(g, e);
    hide Ready;
    hide DistinctTargets;
    hide KeyFits;
    hide Loaded;
    hide TouchedPresent;
    hide Removed;
    hide Changed;
    hide RowsChanged;
    hide ChangedRows;
    hide DeletedRows;
  }

  /** Where the primary key is the only constraint and the table still holds
      the rows touched, the edits can be applied if and only if every change
      fits when its turn comes and so does every new row. */
  lemma StatementsSucceedIff(db: Database, g: Grid, e: Edits, ids: seq<nat>, t: Table)
    requires Ready(g, e) && g.Valid() && KeyFits(g) && DistinctTargets(g) && Loaded(db, g, ids, t)
    requires TouchedPresent(e, ids, t) && TableOk(db, t) && KeysOnly(db)
    ensures |ids| == |g.rows| && forall i :: 0 <= i < |e.inserted| ==> NewRowFits(g, e.inserted[i])
    ensures ExecAll(db, Statements(g, e), t).Some? <==>
            UpdatesFit(db, g, e, ids, t) && exists u :: IsEdited(db, g, e, ids, t, u) && InsertsFit(db, g, e.inserted, u)
  {
    hide *;
    BeforeAll(g, e);
    RowsGoIff(db, g, e, ids, t);
    var ss := Before(g, e, |ChangedRows(g, e)|);
    ExecAllJoins(db, ss, InsertsOf(g, e.inserted), t);
    if ExecAll(db, ss, t).Some? {
      var v := ExecAll(db, ss, t).value;
      InsertsGoIff(db, g, e.inserted, v);
      if u :| IsEdited(db, g, e, ids, t, u) && InsertsFit(db, g, e.inserted, u) {
        EditedIsUnique(db, g, e, ids, t, u, v);
      }
    }
  }

  /** All pending texts convert. */
  ghost predicate TextsConvert(db: Database, g: Grid, e: Edits) {
    forall r: nat :: r < |g.rows| && r !in e.deleted && ChangeFits(g, e, r) ==> Converts(db, g, e.changes[r])
  }

  lemma KeyUntouched(db: Database, g: Grid, e: Edits, ids: seq<nat>, t: Table, r: nat)
    requires Ready(g, e) && g.Valid() && KeyFits(g) && Loaded(db, g, ids, t) && KeysUntouched(db, g, e)
    requires r < |g.rows| && ChangeFits(g, e, r) && ids[r] in t.rows
    ensures AfterKey(db, g, e, r) == KeyOf(db, t.rows[ids[r]])
  {
    var key := KeyOf(db, t.rows[ids[r]]);
    assert KeyNamesFit(db, g) && KeyShown(db, g, r, key);
    KeyStays(db, g, e, r);
    UnchangedKeyIsShown(db, g, e, r, key, key);
    hide KeyOf;
    hide Ready;
    hide KeysUntouched;
    hide Loaded;
    assert forall k: nat :: k < |g.pk| ==> AfterKey(db, g, e, r)[k] == key[k];
  }

  lemma OthersDiffer(db: Database, t: Table, a: nat, b: nat)
    requires UniqueKeys(db, t) && a in t.rows && b in t.rows && a != b
    ensures KeyOf(db, t.rows[a]) != KeyOf(db, t.rows[b])
  {
    hide KeyOf;
  }

  lemma UntouchedFits(db: Database, g: Grid, e: Edits, ids: seq<nat>, t: Table, r: nat)
    requires Ready(g, e) && g.Valid() && KeyFits(g) && Loaded(db, g, ids, t) && TouchedPresent(e, ids, t)
    requires UniqueKeys(db, t) && KeysUntouched(db, g, e) && |ids| == |g.rows|
    requires r < |g.rows| && ChangeFits(g, e, r) && Converts(db, g, e.changes[r])
    ensures UpdateFits(db, g, e, ids, t, r)
  {
    assert r in e.changes && ids[r] in t.rows;
    LoadedDistinct(db, g, ids, t);
    forall j: nat | j < |ids| && IsEarlier(e, j, r)
      ensures j in e.changes && ids[j] in t.rows && ChangeFits(g, e, j) && ids[j] != ids[r]
    {
      assert RealChange(g, j, e.changes[j]);
    }
    hide *;
    KeyUntouched(db, g, e, ids, t, r);
    forall j: nat | j < |ids| && IsEarlier(e, j, r) ensures AfterKey(db, g, e, j) != AfterKey(db, g, e, r) {
      KeyUntouched(db, g, e, ids, t, j);
      OthersDiffer(db, t, ids[j], ids[r]);
    }
    forall id | id in t.rows && id != ids[r] ensures KeyOf(db, t.rows[id]) != AfterKey(db, g, e, r) {
      OthersDiffer(db, t, id, ids[r]);
    }
    FitsIs(db, g, e, ids, t, r);
  }

  lemma FitsIs(db: Database, g: Grid, e: Edits, ids: seq<nat>, t: Table, r: nat)
    requires g.Valid() && KeyFits(g) && |ids| == |g.rows| && r < |g.rows| && r in e.changes && ChangeFits(g, e, r)
    requires ColumnsFit(g, e.changes[r]) && Converts(db, g, e.changes[r])
    requires forall j: nat :: j < |ids| && IsEarlier(e, j, r) ==> j in e.changes && AfterKey(db, g, e, j) != AfterKey(db, g, e, r)
    requires forall id :: id in t.rows && id != ids[r] ==> KeyOf(db, t.rows[id]) != AfterKey(db, g, e, r)
    ensures UpdateFits(db, g, e, ids, t, r)
  {
    hide AfterKey;
    hide KeyOf;
    hide KeyFits;
    hide Converts;
  }

  /** In particular, edits that leave the keys alone and add no rows can be
      applied if and only if all their texts convert. */
  lemma UntouchedKeysSucceedIff(db: Database, g: Grid, e: Edits, ids: seq<nat>, t: Table)
    requires Ready(g, e) && g.Valid() && KeyFits(g) && DistinctTargets(g) && Loaded(db, g, ids, t)
    requires TouchedPresent(e, ids, t) && TableOk(db, t) && KeysOnly(db)
    requires KeysUntouched(db, g, e) && e.inserted == []
    ensures ExecAll(db, Statements(g, e), t).Some? <==> TextsConvert(db, g, e)
  {
    assert UniqueKeys(db, t);
    hide *;
    BeforeAll(g, e);
    RowsGoIff(db, g, e, ids, t);
    NoInserts(db, g, e, t);
    if TextsConvert(db, g, e) {
      forall r: nat | r < |g.rows| && r !in e.deleted && ChangeFits(g, e, r) ensures UpdateFits(db, g, e, ids, t, r) {
        TextsOf(db, g, e, r);
        UntouchedFits(db, g, e, ids, t, r);
      }
      FitAll(db, g, e, ids, t);
    }
    if UpdatesFit(db, g, e, ids, t) {
      FitsConvert(db, g, e, ids, t);
    }
  }

  lemma NoInserts(db: Database, g: Grid, e: Edits, t: Table)
    requires Ready(g, e) && e.inserted == []
    ensures ExecAll(db, Statements(g, e), t) == ExecAll(db, Before(g, e, |ChangedRows(g, e)|), t)
  {
    hide *;
    BeforeAll(g, e);
    NothingToInsert(g);
    assert Before(g, e, |ChangedRows(g, e)|) + [] == Before(g, e, |ChangedRows(g, e)|);
  }

  lemma NothingToInsert(g: Grid)
    ensures InsertsOf(g, []) == []
  {
  }

  lemma TextsOf(db: Database, g: Grid, e: Edits, r: nat)
    requires TextsConvert(db, g, e) && r < |g.rows| && r !in e.deleted && ChangeFits(g, e, r)
    ensures r in e.changes && ColumnsFit(g, e.changes[r]) && Converts(db, g, e.changes[r])
  {
    hide Converts;
    hide ColumnsFit;
  }

  lemma FitAll(db: Database, g: Grid, e: Edits, ids: seq<nat>, t: Table)
    requires g.Valid() && KeyFits(g) && |ids| == |g.rows|
    requires forall r: nat :: r < |g.rows| && r !in e.deleted && ChangeFits(g, e, r) ==> UpdateFits(db, g, e, ids, t, r)
    ensures UpdatesFit(db, g, e, ids, t)
  {
    hide UpdateFits;
    hide KeyFits;
    hide ChangeFits;
  }

  lemma FitsConvert(db: Database, g: Grid, e: Edits, ids: seq<nat>, t: Table)
    requires g.Valid() && KeyFits(g) && |ids| == |g.rows| && UpdatesFit(db, g, e, ids, t)
    ensures TextsConvert(db, g, e)
  {
    hide Converts;
    hide AfterKey;
    hide KeyOf;
    hide KeyFits;
    hide ColumnsFit;
    forall r: nat | r < |g.rows| && r !in e.deleted && ChangeFits(g, e, r) ensures Converts(db, g, e.changes[r]) {
      assert UpdateFits(db, g, e, ids, t, r);
    }
  }

  /** Two rows that swap their keys. */
  function SwapEdits(): Edits {
    Edits(map[0 := map[0 := Some("a")], 1 := map[0 := Some("aa")]], {}, [], None)
  }

  function TwoRows(first: nat, second: nat): Table {
    Table(map[7 := map["k" := Data(first)], 8 := map["k" := Data(second)]], 9)
  }

  lemma SwapReady()
    ensures Ready(KeyGrid(), SwapEdits()) && KeyGrid().Valid() && KeyFits(KeyGrid()) && DistinctTargets(KeyGrid())
  {
    KeyGridFits("");
    ExampleChange(0, "a");
    ExampleChange(1, "aa");
    hide RealChange;
  }

  lemma KeyOfPair(first: nat, second: nat)
    ensures KeyOf(LENGTHS, TwoRows(first, second).rows[7]) == [Data(first)]
    ensures KeyOf(LENGTHS, TwoRows(first, second).rows[8]) == [Data(second)]
    ensures first != second ==> TableOk(LENGTHS, TwoRows(first, second))
  {
    var t := TwoRows(first, second);
    assert t.rows.Keys == {7, 8};
    assert KeyOf(LENGTHS, t.rows[7]) == [Data(first)] && KeyOf(LENGTHS, t.rows[8]) == [Data(second)];
  }

  lemma SwapLoaded()
    requires KeyGrid().Valid() && KeyFits(KeyGrid())
    ensures Loaded(LENGTHS, KeyGrid(), [7, 8], TwoRows(2, 1)) && TouchedPresent(SwapEdits(), [7, 8], TwoRows(2, 1))
  {
    KeyOfPair(2, 1);
    assert |"aa"| == 2 && |"a"| == 1 && KeyText(Some("aa")) == "aa" && KeyText(Some("a")) == "a";
    assert KeyShown(LENGTHS, KeyGrid(), 0, [Data(2)]) && KeyShown(LENGTHS, KeyGrid(), 1, [Data(1)]);
    hide KeyOf;
  }

  lemma SwapDoesNotFit()
    requires KeyGrid().Valid() && KeyFits(KeyGrid())
    ensures !UpdatesFit(LENGTHS, KeyGrid(), SwapEdits(), [7, 8], TwoRows(2, 1))
  {
    var (g, e, t) := (KeyGrid(), SwapEdits(), TwoRows(2, 1));
    KeyOfPair(2, 1);
    assert 8 in t.rows && !IsDeleted(e, [7, 8], 8) && !DoneBefore(e, [7, 8], 0, 8);
    assert ChangeFits(g, e, 0);
    assert AfterKey(LENGTHS, g, e, 0) == [Data(1)] by {
      assert |"a"| == 1 && KeyCellAfter(LENGTHS, g, e, 0, 0) == Some(Data(1));
    }
    hide KeyOf;
    hide AfterKey;
    assert !UpdateFits(LENGTHS, g, e, [7, 8], t, 0);
  }

  lemma RenamesRow(text: string, n: nat)
    requires KeyGrid().Valid() && ColumnsFit(KeyGrid(), map[0 := Some(text)])
    ensures CellsReplaced(LENGTHS, KeyGrid(), map[0 := Some(text)], map["k" := Data(n)], map["k" := Data(|text|)])
  {
    var cells: map<nat, Value> := map[0 := Some(text)];
    assert cells.Keys == {0} && Col(KeyGrid(), 0).name == "k" && 0 in cells;
    assert NamesColumn(KeyGrid(), cells.Keys, "k");
  }

  /** A table whose two rows are both edited. */
  lemma BothEdited(db: Database, g: Grid, e: Edits, t: Table, u: Table)
    requires Ready(g, e) && |g.rows| == 2 && t.rows.Keys == {7, 8} == u.rows.Keys && u.next == t.next && e.deleted == {}
    requires RowIsEdited(db, g, e, [7, 8], t, u, 0) && RowIsEdited(db, g, e, [7, 8], t, u, 1)
    ensures IsEdited(db, g, e, [7, 8], t, u)
  {
    hide RowIsEdited;
    hide Ready;
  }

  lemma SwapIsFine()
    requires Ready(KeyGrid(), SwapEdits())
    ensures IsEdited(LENGTHS, KeyGrid(), SwapEdits(), [7, 8], TwoRows(2, 1), TwoRows(1, 2))
  {
    var (g, e, t, u) := (KeyGrid(), SwapEdits(), TwoRows(2, 1), TwoRows(1, 2));
    KeyGridFits("a");
    KeyGridFits("aa");
    RenamesRow("a", 2);
    RenamesRow("aa", 1);
    var (before, after) := (t.rows, u.rows);
    assert |"aa"| == 2 && |"a"| == 1 && before.Keys == {7, 8} == after.Keys && |g.rows| == 2 && e.deleted == {};
    assert before[7] == map["k" := Data(2)] && after[7] == map["k" := Data(1)];
    assert before[8] == map["k" := Data(1)] && after[8] == map["k" := Data(2)];
    assert e.changes[0] == map[0 := Some("a")] && e.changes[1] == map[0 := Some("aa")] && t.next == u.next;
    hide *;
    RowEditedIs(LENGTHS, g, e, [7, 8], t, u, 0);
    RowEditedIs(LENGTHS, g, e, [7, 8], t, u, 1);
    BothEdited(LENGTHS, g, e, t, u);
  }

  lemma RowEditedIs(db: Database, g: Grid, e: Edits, ids: seq<nat>, t: Table, u: Table, r: nat)
    requires Ready(g, e) && r < |ids| == |g.rows| && ids[r] in t.rows && ids[r] in u.rows && r in e.changes
    requires ColumnsFit(g, e.changes[r]) && CellsReplaced(db, g, e.changes[r], t.rows[ids[r]], u.rows[ids[r]])
    ensures RowIsEdited(db, g, e, ids, t, u, r)
  {
    hide Ready;
    hide CellsReplaced;
    hide ColumnsFit;
  }

  /** Edits whose outcome is a proper table can still be refused: two rows
      that swap their keys. */
  lemma SwapIsRefused()
    ensures var (g, e, t) := (KeyGrid(), SwapEdits(), TwoRows(2, 1));
            Ready(g, e) && g.Valid() && KeyFits(g) && DistinctTargets(g) && KeysOnly(LENGTHS) &&
            Loaded(LENGTHS, g, [7, 8], t) && TouchedPresent(e, [7, 8], t) && TableOk(LENGTHS, t) && |g.rows| == 2 &&
            IsEdited(LENGTHS, g, e, [7, 8], t, TwoRows(1, 2)) && TableOk(LENGTHS, TwoRows(1, 2)) &&
            ExecAll(LENGTHS, Statements(g, e), t) == None
  {
    var (g, e, t) := (KeyGrid(), SwapEdits(), TwoRows(2, 1));
    assert KeysOnly(LENGTHS) && |g.rows| == 2;
    hide *;
    SwapReady();
    SwapLoaded();
    KeyOfPair(2, 1);
    KeyOfPair(1, 2);
    SwapDoesNotFit();
    SwapIsFine();
    StatementsSucceedIff(LENGTHS, g, e, [7, 8], t);
  }
}
