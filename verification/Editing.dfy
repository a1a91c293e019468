/** The editing pipeline from end to end: from the tokens of the query to the
    rows of the table. */
module EditingFlow {
  import opened Prelude
  import opened Sql
  import opened SelectSyntax
  import opened ColumnSpec
  import opened EditSpec
  import opened StatementSpec
  import opened TableSpec
  import ApplyRun
  import Generator
  import GuardSpec
  import ResultSpec
  import SqlReader
  import StatementText
  import Tsv

  /** The grid of a result that editing has started on. */
  ghost predicate StartedOn(g: Grid, items: seq<SelectItem>, shown: ResultSpec.Table,
                            show: (nat, ResultSpec.Cell) -> string, cols: seq<ColumnInfo>) {
    NewEditable(items, shown.columns, cols).Fine? &&
    g == GridOf(shown, show, NewEditable(items, shown.columns, cols).value)
  }

  /** It has one cell per column in every row, its key is editable, and no two
      columns write to the same place. */
  lemma StartedGridIsFit(g: Grid, items: seq<SelectItem>, shown: ResultSpec.Table,
                         show: (nat, ResultSpec.Cell) -> string, cols: seq<ColumnInfo>)
    requires StartedOn(g, items, shown, show, cols) && Tsv.ViewFits(shown)
    ensures g.Valid() && KeyFits(g) && DistinctTargets(g) && Normal(g, NoEdits)
  {
    var target := MapColumns(items, shown.columns, cols);
    EditableIff(items, shown.columns, cols);
    MappedColumnsLineUp(items, shown.columns, cols);
    hide Bears;
    hide MapColumns;
    hide FindKey;
    hide WellTargeted;
    assert |g.target| == |shown.columns|;
    StartedGridFits(g, PrimaryKey(cols));
    hide KeyFits;
    hide DistinctTargets;
  }

  /** Every cell that can be edited shows values of the very column that is
      written, if the result evaluates the select list. */
  lemma EditsGoWhereValuesCameFrom(g: Grid, items: seq<SelectItem>, shown: ResultSpec.Table,
                                   show: (nat, ResultSpec.Cell) -> string, cols: seq<ColumnInfo>,
                                   res: seq<ResultColumn>, c: nat)
    requires StartedOn(g, items, shown, show, cols) && g.Editable(c)
    requires DistinctNames(cols) && Evaluates(items, cols, res) && Names(res) == shown.columns
    ensures c < |res| && res[c].origin == Some(Col(g, c))
  {
    var target := MapColumns(items, shown.columns, cols);
    assert target.Some? && g.target == FirstCopies(target.value);
    MappedColumnsLineUp(items, shown.columns, cols);
    assert |target.value| == |Names(res)| == |res|;
    FirstCopiesKeep(target.value, c);
    hide FirstCopies;
    hide MapColumns;
    MappedIffColumn(items, cols, res, c);
  }

  /** Each editable column is written where its values came from. */
  ghost predicate WritesWhereItRead(g: Grid, res: seq<ResultColumn>) {
    forall c: nat :: g.Editable(c) ==> c < |res| && res[c].origin == Some(Col(g, c))
  }

  lemma AllWriteWhereTheyRead(g: Grid, items: seq<SelectItem>, shown: ResultSpec.Table,
                              show: (nat, ResultSpec.Cell) -> string, cols: seq<ColumnInfo>, res: seq<ResultColumn>)
    requires StartedOn(g, items, shown, show, cols)
    requires DistinctNames(cols) && Evaluates(items, cols, res) && Names(res) == shown.columns
    ensures WritesWhereItRead(g, res)
  {
    hide StartedOn;
    hide DistinctNames;
    hide Evaluates;
    forall c: nat | g.Editable(c) ensures c < |res| && res[c].origin == Some(Col(g, c)) {
      EditsGoWhereValuesCameFrom(g, items, shown, show, cols, res, c);
    }
  }

  /** The cells of every row that stays hold what the grid shows. */
  ghost predicate HoldsWhatIsShown(db: Database, g: Grid, e: Edits, ids: seq<nat>, t: TableSpec.Table, out: TableSpec.Table)
    requires g.Valid() && |ids| == |g.rows|
  {
    forall r: nat, c: nat :: r < |ids| && ids[r] in t.rows && r !in e.deleted && g.Editable(c) ==>
      HoldsShown(db, g, e, ids, out, r, c)
  }

  /** A grid and its edits, and a table that still holds the rows touched. */
  ghost predicate MayApply(db: Database, g: Grid, e: Edits, ids: seq<nat>, t: TableSpec.Table) {
    Ready(g, e) && g.Valid() && KeyFits(g) && DistinctTargets(g) &&
    Loaded(db, g, ids, t) && TouchedPresent(e, ids, t) && TableOk(db, t)
  }

  /** What applying the edits promises of the table. */
  ghost predicate EditsHold(db: Database, g: Grid, e: Edits, ids: seq<nat>, t: TableSpec.Table, out: TableSpec.Table) {
    Ready(g, e) && g.Valid() && |ids| == |g.rows| && (forall i :: 0 <= i < |e.inserted| ==> NewRowFits(g, e.inserted[i])) &&
    TableOk(db, out) && IsApplied(db, g, e, ids, t, out) &&
    (CellsShown(db, g, ids, t) ==> HoldsWhatIsShown(db, g, e, ids, t, out)) &&
    (FillKeeps(db) ==> HoldsNewRows(db, g, e.inserted, t.next, out))
  }

  lemma EditsDoHold(db: Database, g: Grid, e: Edits, ids: seq<nat>, t: TableSpec.Table)
    requires Ready(g, e) && MayApply(db, g, e, ids, t) && ExecAll(db, Statements(g, e), t).Some?
    ensures EditsHold(db, g, e, ids, t, ExecAll(db, Statements(g, e), t).value)
  {
    assert g.Valid() && KeyFits(g) && DistinctTargets(g) && Loaded(db, g, ids, t) && TouchedPresent(e, ids, t);
    assert |ids| == |g.rows| && (forall i :: 0 <= i < |e.inserted| ==> NewRowFits(g, e.inserted[i])) && TableOk(db, t);
    var out := ExecAll(db, Statements(g, e), t).value;
    hide *;
    EditsAreFaithful(db, g, e, ids, t);
    if CellsShown(db, g, ids, t) {
      AllCellsHold(db, g, e, ids, t, out);
    }
    HoldIs(db, g, e, ids, t, out);
  }

  lemma MayApplyIs(db: Database, g: Grid, e: Edits, ids: seq<nat>, t: TableSpec.Table)
    requires Ready(g, e) && g.Valid() && KeyFits(g) && DistinctTargets(g)
    requires Loaded(db, g, ids, t) && TouchedPresent(e, ids, t) && TableOk(db, t)
    ensures MayApply(db, g, e, ids, t)
  {
    hide Ready;
    hide DistinctTargets;
    hide KeyFits;
    hide TableOk;
    hide TouchedPresent;
    hide Loaded;
  }

  lemma HoldIs(db: Database, g: Grid, e: Edits, ids: seq<nat>, t: TableSpec.Table, out: TableSpec.Table)
    requires Ready(g, e) && g.Valid() && |ids| == |g.rows| && forall i :: 0 <= i < |e.inserted| ==> NewRowFits(g, e.inserted[i])
    requires TableOk(db, out) && IsApplied(db, g, e, ids, t, out)
    requires CellsShown(db, g, ids, t) ==> HoldsWhatIsShown(db, g, e, ids, t, out)
    requires FillKeeps(db) ==> HoldsNewRows(db, g, e.inserted, t.next, out)
    ensures EditsHold(db, g, e, ids, t, out)
  {
    hide Ready;
    hide TableOk;
    hide IsApplied;
    hide CellsShown;
    hide HoldsWhatIsShown;
    hide FillKeeps;
    hide HoldsNewRows;
    hide NewRowFits;
  }

  /** The database's primary key is the key columns as the client was told. */
  ghost predicate KeyIsTold(db: Database, cols: seq<ColumnInfo>) {
    forall places :: KeyColumnsAt(cols, places) ==>
      |db.keyNames| == |places| && forall k :: 0 <= k < |places| ==> db.keyNames[k] == cols[places[k]].name
  }

  /** The key of a started grid is the primary key of the table, all of it. */
  lemma GridHasWholeKey(g: Grid, items: seq<SelectItem>, shown: ResultSpec.Table,
                        show: (nat, ResultSpec.Cell) -> string, cols: seq<ColumnInfo>, db: Database)
    requires StartedOn(g, items, shown, show, cols) && KeyIsTold(db, cols)
    ensures |db.keyNames| == |g.pk|
    ensures forall k :: 0 <= k < |g.pk| ==> g.Editable(g.pk[k]) && Col(g, g.pk[k]).name == db.keyNames[k]
  {
    EditableIff(items, shown.columns, cols);
    var places := PrimaryKeyIs(cols);
    hide MapColumns;
    hide FindKey;
    hide PrimaryKey;
    hide KeyColumnsAt;
    forall k | 0 <= k < |g.pk| ensures g.Editable(g.pk[k]) && Col(g, g.pk[k]).name == db.keyNames[k] {
      assert IsHit(g.target, PrimaryKey(cols)[k].name, g.pk[k]);
    }
  }

  /** The pipeline is faithful: take a simple SELECT whose result is shown,
      start editing it, edit and sort it in any way, and apply. The query is
      read as the table it names. If the table still holds the rows that were
      touched and the statements succeed, it becomes the old table without the
      deleted rows, with exactly the changed cells replaced, and the new rows
      after it; it holds what the grid shows and what was typed into the new
      rows, in the columns the values came from. */
  lemma EditingIsFaithful(q: Select, g: Grid, shown: ResultSpec.Table, show: (nat, ResultSpec.Cell) -> string,
                          cols: seq<ColumnInfo>, res: seq<ResultColumn>, gestures: seq<Gesture>, h: Grid, e: Edits,
                          db: Database, ids: seq<nat>, t: TableSpec.Table)
    requires SelectOk(q) && |q.parts| <= 2 && SourceTable(Print(q)).Some?
    requires StartedOn(g, SourceTable(Print(q)).value.items, shown, show, cols) && Tsv.ViewFits(shown)
    requires g.Valid() && Normal(g, NoEdits) && Gestures(g, NoEdits, gestures) == Some((h, e))
    requires h.Valid() && KeyFits(h) && KeyIsTold(db, cols) && RowsLoaded(db, h, ids, t)
    requires TouchedPresent(e, ids, t) && TableOk(db, t)
    ensures SourceTable(Print(q)).value.schema == if |q.parts| == 2 then Some(q.parts[0].text) else None
    ensures SourceTable(Print(q)).value.table == q.parts[|q.parts| - 1].text
    ensures SourceTable(Print(q)).value.items == Meanings(q.items)
    ensures Ready(h, e)
    ensures (DistinctNames(cols) && Evaluates(SourceTable(Print(q)).value.items, cols, res) &&
             Names(res) == shown.columns) ==> WritesWhereItRead(h, res)
    ensures var out := ExecAll(db, Statements(h, e), t);
            out.Some? ==>
              (EditsHold(db, h, e, ids, t, out.value) &&
               exists u :: IsEdited(db, h, e, ids, t, u) && IsExtended(db, h, e.inserted, u, out.value))
  {
    var items := SourceTable(Print(q)).value.items;
    SelectRoundTrip(q);
    StartedGridIsFit(g, items, shown, show, cols);
    assert Normal(h, e) && h == Resorted(g, h.order);
    hide *;
    GridHasWholeKey(g, items, shown, show, cols, db);
    StillFits(g, h, e);
    StillLoaded(db, g, h, ids, t);
    if DistinctNames(cols) && Evaluates(items, cols, res) && Names(res) == shown.columns {
      AllWriteWhereTheyRead(g, items, shown, show, cols, res);
      StillWrites(g, h, res);
    }
    var out := ExecAll(db, Statements(h, e), t);
    if out.Some? {
      EditsAreFaithful(db, h, e, ids, t);
      MayApplyIs(db, h, e, ids, t);
      EditsDoHold(db, h, e, ids, t);
    }
  }

  /** Apply the pending edits of a grid. Reported as applied, they are what is
      committed; reported as failed, nothing has changed, unless the reply to
      COMMIT was lost, and then all of them are committed. */
  method ApplyEdits(session: ApplyRun.Session, g: Grid, e: Edits, ghost ids: seq<nat>) returns (r: ApplyRun.Result)
    requires Ready(g, e) && session.working == None && MayApply(session.db, g, e, ids, session.committed)
    modifies session
    ensures r.Applied? ==>
      r.count == |e.deleted| + |e.changes.Keys - e.deleted| + |e.inserted| &&
      EditsHold(session.db, g, e, ids, old(session.committed), session.committed)
    ensures r.Failed? ==>
      session.committed == old(session.committed) ||
      (session.faults(old(session.clock) + 1 + |Statements(g, e)|) == ApplyRun.ReplyLost &&
       EditsHold(session.db, g, e, ids, old(session.committed), session.committed))
  {
    hide *;
    ghost var t := session.committed;
    StatementCount(g, e);
    var ss := Generator.Generate(g, e);
    r := session.Apply(ss);
    if r.Applied? || session.committed != t {
      assert ExecAll(session.db, ss, t) == Some(session.committed);
      EditsDoHold(session.db, g, e, ids, t);
    }
  }

  /** The text of every statement names the table and the schema that the
      query names (SQLite's "main" is left out), and reads back as just the
      statement whose effect on the table is described here. */
  lemma StatementsNameTheTable(q: Select, w: StatementText.Names, lex: SqlReader.Lexer, h: Grid, e: Edits, i: nat)
    requires SelectOk(q) && |q.parts| <= 2 && SourceTable(Print(q)).Some? && Ready(h, e) && i < |Statements(h, e)|
    requires w.schema == SourceTable(Print(q)).value.schema && w.table == SourceTable(Print(q)).value.table
    requires SqlReader.ReadsNames(w, lex) && SqlReader.TypesRead(w, Placeholders(Statements(h, e)[i]))
    ensures var s := Statements(h, e)[i];
            var read := SqlReader.Read(w.engine, lex, StatementText.StatementSql(w, s));
            var main := w.engine.Sqlite? && q.parts[0].text == "main";
            read == Some(SqlReader.Meant(w, s)) && read.value.table.table == q.parts[|q.parts| - 1].text &&
            read.value.table.schema == if |q.parts| == 2 && !main then Some(q.parts[0].text) else None
  {
    var s := Statements(h, e)[i];
    assert q.parts != [] && |q.parts| <= 2;
    assert SqlReader.EditedTable(w).table == w.table;
    assert SqlReader.EditedTable(w).schema == if w.engine.Sqlite? && w.schema == Some("main") then None else w.schema;
    hide *;
    SelectRoundTrip(q);
    SqlReader.GeneratedIsWellMade(h, e, i);
    SqlReader.StatementReadsBack(w, lex, s);
    SqlReader.TableMeant(w, s);
  }

  /** Sorting changes nothing that statements are made from. */
  lemma StillFits(g: Grid, h: Grid, e: Edits)
    requires g.Valid() && KeyFits(g) && DistinctTargets(g) && h.Valid() && h == Resorted(g, h.order) && Normal(h, e)
    ensures KeyFits(h) && DistinctTargets(h) && Ready(h, e)
  {
    hide Normal;
    assert forall c :: h.Editable(c) <==> g.Editable(c);
    forall a: nat, b: nat | a < b && h.Editable(a) && h.Editable(b) ensures Col(h, a).name != Col(h, b).name {
      assert Col(g, a).name != Col(g, b).name;
    }
  }

  lemma StillLoaded(db: Database, g: Grid, h: Grid, ids: seq<nat>, t: TableSpec.Table)
    requires h == Resorted(g, h.order) && h.Valid() && KeyFits(h) && RowsLoaded(db, h, ids, t) && |db.keyNames| == |g.pk|
    requires forall k :: 0 <= k < |g.pk| ==> g.Editable(g.pk[k]) && Col(g, g.pk[k]).name == db.keyNames[k]
    ensures Loaded(db, h, ids, t)
  {
    hide RowsLoaded;
    hide Loaded;
    assert forall k :: 0 <= k < |h.pk| ==> Col(h, h.pk[k]) == Col(g, g.pk[k]);
    LoadedWhen(db, h, ids, t);
  }

  lemma StillWrites(g: Grid, h: Grid, res: seq<ResultColumn>)
    requires h == Resorted(g, h.order) && WritesWhereItRead(g, res)
    ensures WritesWhereItRead(h, res)
  {
    forall c: nat | h.Editable(c) ensures c < |res| && res[c].origin == Some(Col(h, c)) {
      assert g.Editable(c) && Col(g, c) == Col(h, c);
    }
  }

  lemma AllCellsHold(db: Database, g: Grid, e: Edits, ids: seq<nat>, t: TableSpec.Table, out: TableSpec.Table)
    requires Ready(g, e) && DistinctTargets(g) && g.Valid() && KeyFits(g) && Loaded(db, g, ids, t) && |ids| == |g.rows|
    requires CellsShown(db, g, ids, t) && IsApplied(db, g, e, ids, t, out)
    ensures HoldsWhatIsShown(db, g, e, ids, t, out)
  {
    hide Ready;
    hide Loaded;
    hide CellsShown;
    hide IsApplied;
    hide DistinctTargets;
    hide KeyFits;
    forall r: nat, c: nat | r < |ids| && ids[r] in t.rows && r !in e.deleted && g.Editable(c)
      ensures HoldsShown(db, g, e, ids, out, r, c)
    {
      TableHoldsWhatWasShown(db, g, e, ids, t, out, r, c);
    }
  }

  function OneRowShown(): ResultSpec.Table {
    ResultSpec.Table(["k"], [[ResultSpec.Text("aa")]], true, false, None, None)
  }

  function TextOf(): (nat, ResultSpec.Cell) -> string {
    (_, c: ResultSpec.Cell) => if c.Text? then c.s else ""
  }

  function OneRowGrid(): Grid {
    Grid([[Some("aa")]], [0], [Some(GuardSpec.KEY)], [0])
  }

  lemma OneColumnMaps()
    ensures MapColumns([Column("k")], ["k"], [GuardSpec.KEY]) == Some([Some(GuardSpec.KEY)])
  {
    var items: seq<SelectItem> := [Column("k")];
    assert FindColumn([GuardSpec.KEY], "k", "k") == Some(GuardSpec.KEY);
    assert items[1..] == [] && ["k"][1..] == [];
    assert MapColumns([], [], [GuardSpec.KEY]) == Some([]);
    hide FindColumn;
    assert [Some(GuardSpec.KEY)] + [] == [Some(GuardSpec.KEY)];
  }

  lemma OneColumnStarts()
    ensures NewEditable([Column("k")], ["k"], [GuardSpec.KEY]) == Fine(Editable([Some(GuardSpec.KEY)], [0]))
  {
    var target: seq<Option<ColumnInfo>> := [Some(GuardSpec.KEY)];
    OneColumnMaps();
    hide MapColumns;
    assert [GuardSpec.KEY][1..] == [] && PrimaryKey([]) == [] && [GuardSpec.KEY] + [] == [GuardSpec.KEY];
    assert PrimaryKey([GuardSpec.KEY]) == [GuardSpec.KEY];
    assert target[..0] == [] && Hits([], "k") == [] && [] + [0] == [0];
    assert Hits(target, "k") == [0];
    var none: seq<nat> := [];
    assert FindKey(target, []) == Fine(none) && [0] + none == [0];
    assert GuardSpec.KEY.name == "k" && |Hits(target, GuardSpec.KEY.name)| == 1;
    assert FindKey(target, [GuardSpec.KEY]) == Fine([0]);
    assert FirstCopies(target) == target;
  }

  lemma OneRowFits()
    ensures OneRowGrid().Valid() && KeyFits(OneRowGrid()) && Normal(OneRowGrid(), NoEdits)
    ensures Tsv.ViewFits(OneRowShown())
    ensures GridOf(OneRowShown(), TextOf(), Editable([Some(GuardSpec.KEY)], [0])) == OneRowGrid()
  {
    var g := GridOf(OneRowShown(), TextOf(), Editable([Some(GuardSpec.KEY)], [0]));
    assert OneRowGrid().Editable(0);
    assert |g.rows| == 1 && |g.rows[0]| == 1 && g.rows[0][0] == Some("aa");
    assert g.rows[0] == [Some("aa")];
    assert g.rows == [[Some("aa")]];
    assert g.order == [0];
  }

  lemma OneRowLoaded()
    requires OneRowGrid().Valid() && KeyFits(OneRowGrid())
    ensures RowsLoaded(GuardSpec.LENGTHS, OneRowGrid(), [7], GuardSpec.OneRow(2))
    ensures TouchedPresent(NoEdits, [7], GuardSpec.OneRow(2)) && TableOk(GuardSpec.LENGTHS, GuardSpec.OneRow(2))
  {
    assert KeyOf(GuardSpec.LENGTHS, GuardSpec.OneRow(2).rows[7]) == [Data(2)];
    assert KeyText(Some("aa")) == "aa" && |"aa"| == 2;
    assert KeyShown(GuardSpec.LENGTHS, OneRowGrid(), 0, [Data(2)]);
  }

  lemma OneKeyTold()
    ensures KeyIsTold(GuardSpec.LENGTHS, [GuardSpec.KEY])
  {
    var cols := [GuardSpec.KEY];
    assert KeyColumnsAt(cols, [0]);
    forall places | KeyColumnsAt(cols, places) ensures places == [0] {
      SamePlaces(cols, places, [0]);
    }
    hide KeyColumnsAt;
  }

  /** The pipeline has work to do: a query for one key column, shown with one
      row of a table that holds it, meets every condition of the theorem. */
  lemma PipelineIsPossible(q: Select)
    requires SelectOk(q) && |q.parts| == 1 && Meanings(q.items) == [Column("k")]
    ensures var (g, t) := (OneRowGrid(), GuardSpec.OneRow(2));
            SourceTable(Print(q)).Some? &&
            StartedOn(g, SourceTable(Print(q)).value.items, OneRowShown(), TextOf(), [GuardSpec.KEY]) &&
            Tsv.ViewFits(OneRowShown()) && g.Valid() && KeyFits(g) && Normal(g, NoEdits) &&
            KeyIsTold(GuardSpec.LENGTHS, [GuardSpec.KEY]) && RowsLoaded(GuardSpec.LENGTHS, g, [7], t) &&
            TouchedPresent(NoEdits, [7], t) && TableOk(GuardSpec.LENGTHS, t)
  {
    SelectRoundTrip(q);
    var items := SourceTable(Print(q)).value.items;
    assert OneRowShown().columns == ["k"];
    hide *;
    OneColumnStarts();
    OneRowFits();
    OneRowLoaded();
    OneKeyTold();
    StartedIs(OneRowGrid(), items, OneRowShown(), TextOf(), [GuardSpec.KEY], Editable([Some(GuardSpec.KEY)], [0]));
  }

  lemma StartedIs(g: Grid, items: seq<SelectItem>, shown: ResultSpec.Table,
                  show: (nat, ResultSpec.Cell) -> string, cols: seq<ColumnInfo>, editable: Editable)
    requires NewEditable(items, shown.columns, cols) == Fine(editable) && g == GridOf(shown, show, editable)
    ensures StartedOn(g, items, shown, show, cols)
  {
  }
}
