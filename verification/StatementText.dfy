/** The text of generated statements (`table_sql`, `ph`, `key`, `statements`
    in crates/sqail-ui/src/editing.rs) and the review dialog that shows them
    with their values. */
module StatementText {
  import opened Prelude
  import opened ColumnSpec
  import opened EditSpec
  import opened StatementSpec
  import opened PreviewSpec
  import opened Texts

  /** How an engine writes names: `quote_ident`, and the table being edited. */
  datatype Names = Names(engine: Engine, quote: string -> string, schema: Option<string>, table: string)

  /** `table_sql`. */
  function TableSql(w: Names): string {
    if w.schema.Some? && !(w.engine == Sqlite && w.schema.value == "main") then
      w.quote(w.schema.value) + "." + w.quote(w.table)
    else w.quote(w.table)
  }

  /** `ph`: a placeholder as written, with the cast PostgreSQL needs. */
  function PlaceSql(w: Names, b: Bound): string {
    Placeholder(w.engine, b.n) + if w.engine == Postgres then b.col.dataType else ""
  }

  /** `column = placeholder`. */
  function EquationSql(w: Names, b: Bound): string {
    w.quote(b.col.name) + " = " + PlaceSql(w, b)
  }

  function Equations(w: Names, bs: seq<Bound>): seq<string> {
    seq(|bs|, i requires 0 <= i < |bs| => EquationSql(w, bs[i]))
  }

  function Places(w: Names, bs: seq<Bound>): seq<string> {
    seq(|bs|, i requires 0 <= i < |bs| => PlaceSql(w, bs[i]))
  }

  function ColumnNames(w: Names, bs: seq<Bound>): seq<string> {
    seq(|bs|, i requires 0 <= i < |bs| => w.quote(bs[i].col.name))
  }

  /** A statement as `statements` writes it. */
  function StatementSql(w: Names, s: Statement): string {
    match s
    case Delete(key, _) => "DELETE FROM " + TableSql(w) + " WHERE " + Join(" AND ", Equations(w, key))
    case Update(sets, key, _) =>
      "UPDATE " + TableSql(w) + " SET " + Join(", ", Equations(w, sets)) + " WHERE " + Join(" AND ", Equations(w, key))
    case Insert(cols, _) =>
      if cols == [] then "INSERT INTO " + TableSql(w) + " DEFAULT VALUES"
      else "INSERT INTO " + TableSql(w) + " (" + Join(", ", ColumnNames(w, cols)) + ") VALUES (" +
           Join(", ", Places(w, cols)) + ")"
  }

  /** The text between placeholders, and the placeholders. */
  function PlacePieces(w: Names, b: Bound): seq<Piece> {
    [Hole(b.n)] + if w.engine == Postgres then [Fixed(b.col.dataType)] else []
  }

  /** Bounds with `lead(b)` before each placeholder and `sep` between them,
      followed by `rest`. */
  function BoundPieces(w: Names, bs: seq<Bound>, named: bool, sep: string, rest: seq<Piece>): seq<Piece> {
    if bs == [] then rest
    else (if named then [Fixed(w.quote(bs[0].col.name) + " = ")] else []) + PlacePieces(w, bs[0]) +
         if |bs| == 1 then rest else [Fixed(sep)] + BoundPieces(w, bs[1..], named, sep, rest)
  }

  function Pieces(w: Names, s: Statement): seq<Piece> {
    match s
    case Delete(key, _) =>
      [Fixed("DELETE FROM " + TableSql(w) + " WHERE ")] + BoundPieces(w, key, true, " AND ", [])
    case Update(sets, key, _) =>
      [Fixed("UPDATE " + TableSql(w) + " SET ")] +
      BoundPieces(w, sets, true, ", ", [Fixed(" WHERE ")] + BoundPieces(w, key, true, " AND ", []))
    case Insert(cols, _) =>
      if cols == [] then [Fixed("INSERT INTO " + TableSql(w) + " DEFAULT VALUES")]
      else [Fixed("INSERT INTO " + TableSql(w) + " (" + Join(", ", ColumnNames(w, cols)) + ") VALUES (")] +
           BoundPieces(w, cols, false, ", ", [Fixed(")")])
  }

  /** `rest` cannot be read into a placeholder before it. */
  ghost predicate Closes(e: Engine, rest: seq<Piece>) {
    StartsStop(e, Written(e, rest)) && (Written(e, rest) == "" || !IsDigit(Written(e, rest)[0]))
  }

  lemma WrittenOne(e: Engine, p: Piece, rest: seq<Piece>)
    ensures Written(e, [p] + rest) == PieceText(e, p) + Written(e, rest)
  {
    assert ([p] + rest)[1..] == rest;
  }

  /** Text that ends in a character no placeholder contains is safe. */
  lemma EndsStopped(e: Engine, t: string)
    requires t != "" && (t[|t| - 1] == ' ' || t[|t| - 1] == '(' || t[|t| - 1] == ')')
    ensures Stopped(e, t)
  {
    forall i | 0 <= i < |t| && t[i] == Marker(e) ensures StoppedAfter(e, t, i) {
      assert !Body(e, t[|t| - 1]) && i < |t| - 1;
    }
  }

  lemma TextSafe(e: Engine, t: string, rest: seq<Piece>)
    requires t != "" && (t[|t| - 1] == ' ' || t[|t| - 1] == '(' || t[|t| - 1] == ')')
    requires Safe(e, rest)
    ensures Safe(e, [Fixed(t)] + rest)
  {
    EndsStopped(e, t);
    hide Safe;
    hide Stopped;
    SafeAdd(e, Fixed(t), rest);
  }

  lemma PlaceSafe(w: Names, b: Bound, rest: seq<Piece>)
    requires Safe(w.engine, rest) && Closes(w.engine, rest)
    ensures Safe(w.engine, PlacePieces(w, b) + rest)
  {
    var e := w.engine;
    hide Safe;
    hide Written;
    hide IsDigit;
    if e == Postgres {
      SafeAdd(e, Fixed(b.col.dataType), rest);
      SafeAdd(e, Hole(b.n), [Fixed(b.col.dataType)] + rest);
      assert PlacePieces(w, b) + rest == [Hole(b.n)] + ([Fixed(b.col.dataType)] + rest);
    } else {
      SafeAdd(e, Hole(b.n), rest);
      assert PlacePieces(w, b) == [Hole(b.n)];
    }
  }

  predicate IsSeparator(sep: string) {
    sep == ", " || sep == " AND "
  }

  lemma SeparatorCloses(e: Engine, sep: string, rest: seq<Piece>)
    requires IsSeparator(sep)
    ensures Closes(e, [Fixed(sep)] + rest)
  {
    WrittenOne(e, Fixed(sep), rest);
    hide Written;
    assert (sep + Written(e, rest))[0] == sep[0];
  }

  lemma {:induction false} BoundsSafe(w: Names, bs: seq<Bound>, named: bool, sep: string, rest: seq<Piece>)
    requires IsSeparator(sep) && Safe(w.engine, rest) && Closes(w.engine, rest)
    ensures Safe(w.engine, BoundPieces(w, bs, named, sep, rest))
  {
    if bs != [] {
      var e := w.engine;
      var more := if |bs| == 1 then rest else [Fixed(sep)] + BoundPieces(w, bs[1..], named, sep, rest);
      if |bs| > 1 {
        BoundsSafe(w, bs[1..], named, sep, rest);
        TextSafe(e, sep, BoundPieces(w, bs[1..], named, sep, rest));
        SeparatorCloses(e, sep, BoundPieces(w, bs[1..], named, sep, rest));
      }
      BoundFirst(w, bs, named, sep, rest);
      hide *;
      PlaceSafe(w, bs[0], more);
      if named {
        TextSafe(e, w.quote(bs[0].col.name) + " = ", PlacePieces(w, bs[0]) + more);
      }
    }
  }

  lemma BoundFirst(w: Names, bs: seq<Bound>, named: bool, sep: string, rest: seq<Piece>)
    requires bs != []
    ensures var more := if |bs| == 1 then rest else [Fixed(sep)] + BoundPieces(w, bs[1..], named, sep, rest);
            BoundPieces(w, bs, named, sep, rest) ==
            if named then [Fixed(w.quote(bs[0].col.name) + " = ")] + (PlacePieces(w, bs[0]) + more)
            else PlacePieces(w, bs[0]) + more
  {
    hide PlacePieces;
  }

  lemma WrittenPlace(w: Names, b: Bound, rest: seq<Piece>)
    ensures Written(w.engine, PlacePieces(w, b) + rest) == PlaceSql(w, b) + Written(w.engine, rest)
  {
    var e := w.engine;
    hide Written;
    hide Placeholder;
    if e == Postgres {
      WrittenOne(e, Fixed(b.col.dataType), rest);
      WrittenOne(e, Hole(b.n), [Fixed(b.col.dataType)] + rest);
      assert PlacePieces(w, b) + rest == [Hole(b.n)] + ([Fixed(b.col.dataType)] + rest);
    } else {
      WrittenOne(e, Hole(b.n), rest);
      assert PlacePieces(w, b) == [Hole(b.n)];
      assert PlaceSql(w, b) == Placeholder(e, b.n);
    }
  }

  function BoundSql(w: Names, bs: seq<Bound>, named: bool): seq<string> {
    if named then Equations(w, bs) else Places(w, bs)
  }

  lemma JoinFirst(parts: seq<string>, sep: string)
    requires parts != []
    ensures Join(sep, parts) == parts[0] + if |parts| == 1 then "" else sep + Join(sep, parts[1..])
  {
    hide Join;
    if |parts| == 1 {
      JoinOne(parts, sep);
    } else {
      JoinMore(parts, sep);
      assert parts[0] + sep + Join(sep, parts[1..]) == parts[0] + (sep + Join(sep, parts[1..]));
    }
  }

  lemma JoinOne(parts: seq<string>, sep: string)
    requires |parts| == 1
    ensures Join(sep, parts) == parts[0] && parts[0] + "" == parts[0]
  {
  }

  lemma JoinMore(parts: seq<string>, sep: string)
    requires |parts| > 1
    ensures Join(sep, parts) == parts[0] + sep + Join(sep, parts[1..])
  {
  }

  lemma BoundSqlParts(w: Names, bs: seq<Bound>, named: bool)
    requires bs != []
    ensures var parts := BoundSql(w, bs, named);
            |parts| == |bs| && parts[1..] == BoundSql(w, bs[1..], named) &&
            parts[0] == (if named then w.quote(bs[0].col.name) + " = " else "") + PlaceSql(w, bs[0])
  {
    hide PlaceSql;
    if named {
      assert EquationSql(w, bs[0]) == w.quote(bs[0].col.name) + " = " + PlaceSql(w, bs[0]);
    } else {
      assert "" + PlaceSql(w, bs[0]) == PlaceSql(w, bs[0]);
    }
  }

  lemma Regroup(a: string, b: string, c: string, d: string)
    ensures a + (b + (c + d)) == a + b + (c + d) == a + b + c + d
  {
  }

  lemma WrittenBoundFirst(w: Names, bs: seq<Bound>, named: bool, more: seq<Piece>)
    requires bs != []
    ensures var ps := PlacePieces(w, bs[0]) + more;
            Written(w.engine, if named then [Fixed(w.quote(bs[0].col.name) + " = ")] + ps else ps) ==
            BoundSql(w, bs, named)[0] + Written(w.engine, more)
  {
    var (e, name) := (w.engine, w.quote(bs[0].col.name) + " = ");
    hide *;
    WrittenPlace(w, bs[0], more);
    BoundSqlParts(w, bs, named);
    if named {
      WrittenOne(e, Fixed(name), PlacePieces(w, bs[0]) + more);
      FixedText(e, name);
      ConcatAssoc(name, PlaceSql(w, bs[0]), Written(e, more));
    } else {
      assert "" + PlaceSql(w, bs[0]) == PlaceSql(w, bs[0]);
    }
  }

  /** The pieces spell the joined text. */
  lemma {:induction false} WrittenBounds(w: Names, bs: seq<Bound>, named: bool, sep: string, rest: seq<Piece>)
    ensures Written(w.engine, BoundPieces(w, bs, named, sep, rest)) ==
            Join(sep, BoundSql(w, bs, named)) + Written(w.engine, rest)
  {
    var e := w.engine;
    var parts := BoundSql(w, bs, named);
    if bs == [] {
      assert parts == [];
    } else {
      var tail := BoundPieces(w, bs[1..], named, sep, rest);
      var more := if |bs| == 1 then rest else [Fixed(sep)] + tail;
      BoundFirst(w, bs, named, sep, rest);
      hide *;
      WrittenBoundFirst(w, bs, named, more);
      BoundSqlParts(w, bs, named);
      JoinFirst(parts, sep);
      if |bs| > 1 {
        WrittenBounds(w, bs[1..], named, sep, rest);
        WrittenOne(e, Fixed(sep), tail);
        assert PieceText(e, Fixed(sep)) == sep by {
          FixedText(e, sep);
        }
        Regroup(parts[0], sep, Join(sep, parts[1..]), Written(e, rest));
      } else {
        Regroup(parts[0], "", "", Written(e, rest));
      }
    }
  }

  lemma FixedText(e: Engine, t: string)
    ensures PieceText(e, Fixed(t)) == t
  {
  }

  lemma WrittenEnd(e: Engine)
    ensures Written(e, []) == "" && Safe(e, []) && Closes(e, [])
  {
  }

  lemma KeyWritten(w: Names, key: seq<Bound>, head: string)
    ensures Written(w.engine, [Fixed(head)] + BoundPieces(w, key, true, " AND ", [])) ==
            head + Join(" AND ", Equations(w, key))
  {
    WrittenEnd(w.engine);
    WrittenBounds(w, key, true, " AND ", []);
    WrittenOne(w.engine, Fixed(head), BoundPieces(w, key, true, " AND ", []));
    hide Written;
    hide BoundPieces;
    hide Join;
    hide Equations;
    assert Join(" AND ", Equations(w, key)) + "" == Join(" AND ", Equations(w, key));
  }

  lemma UpdateWritten(w: Names, s: Statement)
    requires s.Update?
    ensures Written(w.engine, Pieces(w, s)) == StatementSql(w, s)
  {
    var (e, head) := (w.engine, "UPDATE " + TableSql(w) + " SET ");
    var tail := [Fixed(" WHERE ")] + BoundPieces(w, s.key, true, " AND ", []);
    KeyWritten(w, s.key, " WHERE ");
    WrittenBounds(w, s.sets, true, ", ", tail);
    WrittenOne(e, Fixed(head), BoundPieces(w, s.sets, true, ", ", tail));
    hide Written;
    hide BoundPieces;
    hide Join;
    hide Equations;
    hide TableSql;
    var (a, b) := (Join(", ", Equations(w, s.sets)), Join(" AND ", Equations(w, s.key)));
    Regroup(head, a, " WHERE ", b);
  }

  lemma InsertWritten(w: Names, s: Statement)
    requires s.Insert?
    ensures Written(w.engine, Pieces(w, s)) == StatementSql(w, s)
  {
    var (e, t, cols) := (w.engine, TableSql(w), s.cols);
    WrittenEnd(e);
    if cols == [] {
      WrittenOne(e, Fixed("INSERT INTO " + t + " DEFAULT VALUES"), []);
    } else {
      var head := "INSERT INTO " + t + " (" + Join(", ", ColumnNames(w, cols)) + ") VALUES (";
      WrittenOne(e, Fixed(")"), []);
      assert [Fixed(")")] + [] == [Fixed(")")];
      WrittenBounds(w, cols, false, ", ", [Fixed(")")]);
      WrittenOne(e, Fixed(head), BoundPieces(w, cols, false, ", ", [Fixed(")")]));
      hide BoundPieces;
      hide Written;
      hide Places;
      hide ColumnNames;
      hide Join;
      hide TableSql;
      assert head + (Join(", ", Places(w, cols)) + (")" + "")) == head + Join(", ", Places(w, cols)) + ")";
    }
  }

  /** The text of a statement is its pieces, written out. */
  lemma SqlIsWritten(w: Names, s: Statement)
    ensures Written(w.engine, Pieces(w, s)) == StatementSql(w, s)
  {
    match s
    case Delete(key, _) =>
      KeyWritten(w, key, "DELETE FROM " + TableSql(w) + " WHERE ");
      hide Written;
      hide BoundPieces;
      hide Join;
      hide TableSql;
    case Update(_, _, _) =>
      hide *;
      UpdateWritten(w, s);
    case Insert(_, _) =>
      hide *;
      InsertWritten(w, s);
  }

  lemma KeySafe(w: Names, key: seq<Bound>, head: string)
    requires head != "" && head[|head| - 1] == ' '
    ensures Safe(w.engine, [Fixed(head)] + BoundPieces(w, key, true, " AND ", []))
  {
    WrittenEnd(w.engine);
    hide Safe;
    hide BoundPieces;
    hide Closes;
    BoundsSafe(w, key, true, " AND ", []);
    TextSafe(w.engine, head, BoundPieces(w, key, true, " AND ", []));
  }

  lemma UpdateSafe(w: Names, s: Statement)
    requires s.Update?
    ensures Safe(w.engine, Pieces(w, s))
  {
    hide TableSql;
    var (e, head) := (w.engine, "UPDATE " + TableSql(w) + " SET ");
    var key := BoundPieces(w, s.key, true, " AND ", []);
    var tail := [Fixed(" WHERE ")] + key;
    hide Safe;
    hide BoundPieces;
    hide Written;
    KeySafe(w, s.key, " WHERE ");
    TextCloses(e, " WHERE ", key);
    BoundsSafe(w, s.sets, true, ", ", tail);
    TextSafe(e, head, BoundPieces(w, s.sets, true, ", ", tail));
  }

  lemma TextCloses(e: Engine, t: string, rest: seq<Piece>)
    requires t != "" && (t[0] == ' ' || t[0] == ')')
    ensures Closes(e, [Fixed(t)] + rest)
  {
    WrittenOne(e, Fixed(t), rest);
    hide Written;
    assert (t + Written(e, rest))[0] == t[0];
  }

  lemma InsertSafe(w: Names, s: Statement)
    requires s.Insert?
    ensures Safe(w.engine, Pieces(w, s))
  {
    hide TableSql;
    hide Join;
    hide ColumnNames;
    var (e, t, cols) := (w.engine, TableSql(w), s.cols);
    WrittenEnd(e);
    hide Safe;
    hide Written;
    hide BoundPieces;
    hide Closes;
    if cols == [] {
      SafeAdd(e, Fixed("INSERT INTO " + t + " DEFAULT VALUES"), []);
    } else {
      TextSafe(e, ")", []);
      TextCloses(e, ")", []);
      assert [Fixed(")")] + [] == [Fixed(")")];
      BoundsSafe(w, cols, false, ", ", [Fixed(")")]);
      TextSafe(e, "INSERT INTO " + t + " (" + Join(", ", ColumnNames(w, cols)) + ") VALUES (",
               BoundPieces(w, cols, false, ", ", [Fixed(")")]));
    }
  }

  /** No text of a generated statement runs into a placeholder, whatever the
      names are. */
  lemma PiecesSafe(w: Names, s: Statement)
    ensures Safe(w.engine, Pieces(w, s))
  {
    match s
    case Delete(key, _) =>
      KeySafe(w, key, "DELETE FROM " + TableSql(w) + " WHERE ");
      hide Safe;
      hide BoundPieces;
      hide TableSql;
    case Update(_, _, _) =>
      hide *;
      UpdateSafe(w, s);
    case Insert(_, _) =>
      hide *;
      InsertSafe(w, s);
  }

  predicate NumbersUpTo(bs: seq<Bound>, m: nat) {
    forall i :: 0 <= i < |bs| ==> 1 <= bs[i].n <= m
  }

  lemma {:induction false} BoundHoles(w: Names, bs: seq<Bound>, named: bool, sep: string, rest: seq<Piece>, m: nat)
    requires NumbersUpTo(bs, m) && HolesUpTo(rest, m)
    ensures HolesUpTo(BoundPieces(w, bs, named, sep, rest), m)
  {
    if bs != [] {
      var more := if |bs| == 1 then rest else [Fixed(sep)] + BoundPieces(w, bs[1..], named, sep, rest);
      BoundFirst(w, bs, named, sep, rest);
      assert bs[0].n <= m;
      hide BoundPieces;
      if |bs| > 1 {
        assert NumbersUpTo(bs[1..], m);
        BoundHoles(w, bs[1..], named, sep, rest, m);
      }
      assert HolesUpTo(more, m);
      assert HolesUpTo(PlacePieces(w, bs[0]), m);
    }
  }

  /** A statement numbered 1..m has its holes there. */
  lemma PiecesNumbered(w: Names, g: Grid, s: Statement)
    requires Numbered(g, s)
    ensures HolesUpTo(Pieces(w, s), |s.params|)
  {
    var m := |s.params|;
    BoundsNumbered(g, s);
    hide Numbered;
    hide TableSql;
    hide Join;
    hide ColumnNames;
    hide BoundPieces;
    match s
    case Delete(key, _) =>
      BoundHoles(w, key, true, " AND ", [], m);
    case Update(sets, key, _) =>
      var tail := BoundPieces(w, key, true, " AND ", []);
      BoundHoles(w, key, true, " AND ", [], m);
      BoundHoles(w, sets, true, ", ", [Fixed(" WHERE ")] + tail, m);
    case Insert(cols, _) =>
      BoundHoles(w, cols, false, ", ", [Fixed(")")], m);
  }

  lemma BoundsNumbered(g: Grid, s: Statement)
    requires Numbered(g, s)
    ensures s.Delete? ==> NumbersUpTo(s.key, |s.params|)
    ensures s.Update? ==> NumbersUpTo(s.sets, |s.params|) && NumbersUpTo(s.key, |s.params|)
    ensures s.Insert? ==> NumbersUpTo(s.cols, |s.params|)
  {
    var (ps, m) := (Placeholders(s), |s.params|);
    assert NumbersUpTo(ps, m);
    if s.Update? {
      forall i | 0 <= i < |s.sets| ensures 1 <= s.sets[i].n <= m {
        assert ps[i] == s.sets[i];
      }
      forall i | 0 <= i < |s.key| ensures 1 <= s.key[i].n <= m {
        assert ps[|s.sets| + i] == s.key[i];
      }
    }
  }

  /** What the dialog should show: the statement with its values in place. */
  ghost predicate ShownFaithfully(w: Names, s: Statement)
    requires HolesUpTo(Pieces(w, s), |s.params|)
  {
    Preview(w.engine, StatementSql(w, s), s.params) == Simultaneous(w.engine, Pieces(w, s), s.params)
  }

  /** For every statement of every edit, on every engine and for all names:
      the dialog shows exactly that statement with its values in place, unless
      a name, a type or a value itself reads like a placeholder. */
  lemma DialogShowsStatement(w: Names, g: Grid, edits: Edits, i: nat)
    requires Ready(g, edits) && i < |Statements(g, edits)|
    ensures var s := Statements(g, edits)[i];
            HolesUpTo(Pieces(w, s), |s.params|) &&
            (ShownFaithfully(w, s) <==> NothingReread(w.engine, Pieces(w, s), s.params))
  {
    StatementsNumbered(g, edits);
    var s := Statements(g, edits)[i];
    assert Numbered(g, s);
    PiecesNumbered(w, g, s);
    PiecesSafe(w, s);
    SqlIsWritten(w, s);
    hide *;
    SimultaneousIff(w.engine, Pieces(w, s), s.params);
    assert ShownFaithfully(w, s) <==>
        Preview(w.engine, StatementSql(w, s), s.params) == Simultaneous(w.engine, Pieces(w, s), s.params) by {
      FaithfulMeans(w, s);
    }
  }

  lemma FaithfulMeans(w: Names, s: Statement)
    requires HolesUpTo(Pieces(w, s), |s.params|)
    ensures ShownFaithfully(w, s) <==>
            Preview(w.engine, StatementSql(w, s), s.params) == Simultaneous(w.engine, Pieces(w, s), s.params)
  {
    hide Preview;
    hide Simultaneous;
    hide Pieces;
    hide StatementSql;
  }

  ghost predicate FixedPlain(e: Engine, ps: seq<Piece>) {
    forall i :: 0 <= i < |ps| && ps[i].Fixed? ==> Plain(e, ps[i].text)
  }

  /** No marker in any name or type that a statement mentions. */
  ghost predicate PlainBounds(w: Names, bs: seq<Bound>) {
    forall i :: 0 <= i < |bs| ==> Plain(w.engine, w.quote(bs[i].col.name)) && Plain(w.engine, bs[i].col.dataType)
  }

  lemma PlainAdd(e: Engine, a: string, b: string)
    requires Plain(e, a) && Plain(e, b)
    ensures Plain(e, a + b)
  {
  }

  lemma {:induction false} JoinPlain(w: Names, parts: seq<string>)
    requires forall i :: 0 <= i < |parts| ==> Plain(w.engine, parts[i])
    ensures Plain(w.engine, Join(", ", parts))
  {
    if |parts| > 1 {
      JoinPlain(w, parts[1..]);
      PlainAdd(w.engine, parts[0], ", ");
      PlainAdd(w.engine, parts[0] + ", ", Join(", ", parts[1..]));
    }
  }

  lemma {:induction false} BoundsPlain(w: Names, bs: seq<Bound>, named: bool, sep: string, rest: seq<Piece>)
    requires PlainBounds(w, bs) && IsSeparator(sep) && FixedPlain(w.engine, rest)
    ensures FixedPlain(w.engine, BoundPieces(w, bs, named, sep, rest))
  {
    if bs != [] {
      var e := w.engine;
      var more := if |bs| == 1 then rest else [Fixed(sep)] + BoundPieces(w, bs[1..], named, sep, rest);
      assert Plain(e, sep) && Plain(e, " = ");
      BoundFirst(w, bs, named, sep, rest);
      PlainAdd(e, w.quote(bs[0].col.name), " = ");
      hide BoundPieces;
      hide Plain;
      if |bs| > 1 {
        BoundsPlain(w, bs[1..], named, sep, rest);
      }
      assert FixedPlain(e, more);
      assert FixedPlain(e, PlacePieces(w, bs[0]));
    }
  }

  /** No marker in the table's name, in any column or type the statement
      names, or in any value. */
  ghost predicate PlainStatement(w: Names, s: Statement) {
    Plain(w.engine, TableSql(w)) && PlainBounds(w, Placeholders(s)) &&
    forall k :: 0 <= k < |s.params| ==> PlainParam(w.engine, s.params[k])
  }

  lemma HeadPlain(e: Engine, a: string, t: string, b: string)
    requires Plain(e, a) && Plain(e, t) && Plain(e, b)
    ensures Plain(e, a + t + b)
  {
  }

  lemma FixedAdd(e: Engine, t: string, ps: seq<Piece>)
    requires Plain(e, t) && FixedPlain(e, ps)
    ensures FixedPlain(e, [Fixed(t)] + ps)
  {
    hide Plain;
  }

  lemma UpdatePlain(w: Names, s: Statement)
    requires s.Update? && PlainStatement(w, s)
    ensures FixedPlain(w.engine, Pieces(w, s))
  {
    var (e, t) := (w.engine, TableSql(w));
    assert Plain(e, "UPDATE ") && Plain(e, " SET ") && Plain(e, " WHERE ");
    PlainSplit(w, s.sets, s.key);
    assert Placeholders(s) == s.sets + s.key;
    HeadPlain(e, "UPDATE ", t, " SET ");
    hide Plain;
    hide PlainBounds;
    hide BoundPieces;
    hide TableSql;
    var tail := BoundPieces(w, s.key, true, " AND ", []);
    BoundsPlain(w, s.key, true, " AND ", []);
    FixedAdd(e, " WHERE ", tail);
    BoundsPlain(w, s.sets, true, ", ", [Fixed(" WHERE ")] + tail);
    FixedAdd(e, "UPDATE " + t + " SET ", BoundPieces(w, s.sets, true, ", ", [Fixed(" WHERE ")] + tail));
  }

  lemma PlainSplit(w: Names, a: seq<Bound>, b: seq<Bound>)
    ensures PlainBounds(w, a + b) ==> PlainBounds(w, a) && PlainBounds(w, b)
  {
    hide Plain;
    if PlainBounds(w, a + b) {
      forall i | 0 <= i < |a| ensures Plain(w.engine, w.quote(a[i].col.name)) && Plain(w.engine, a[i].col.dataType) {
        assert (a + b)[i] == a[i];
      }
      forall i | 0 <= i < |b| ensures Plain(w.engine, w.quote(b[i].col.name)) && Plain(w.engine, b[i].col.dataType) {
        assert (a + b)[|a| + i] == b[i];
      }
    }
  }

  lemma DeletePlain(w: Names, s: Statement)
    requires s.Delete? && PlainStatement(w, s)
    ensures FixedPlain(w.engine, Pieces(w, s))
  {
    var (e, t) := (w.engine, TableSql(w));
    assert Plain(e, "DELETE FROM ") && Plain(e, " WHERE ");
    HeadPlain(e, "DELETE FROM ", t, " WHERE ");
    hide Plain;
    hide PlainBounds;
    hide BoundPieces;
    hide TableSql;
    BoundsPlain(w, s.key, true, " AND ", []);
    FixedAdd(e, "DELETE FROM " + t + " WHERE ", BoundPieces(w, s.key, true, " AND ", []));
  }

  lemma InsertPlain(w: Names, s: Statement)
    requires s.Insert? && PlainStatement(w, s)
    ensures FixedPlain(w.engine, Pieces(w, s))
  {
    var (e, t, cols) := (w.engine, TableSql(w), s.cols);
    assert Plain(e, "INSERT INTO ") && Plain(e, " DEFAULT VALUES") && Plain(e, " (") && Plain(e, ") VALUES (") && Plain(e, ")");
    HeadPlain(e, "INSERT INTO ", t, " (");
    HeadPlain(e, "INSERT INTO ", t, " DEFAULT VALUES");
    JoinPlain(w, ColumnNames(w, cols));
    HeadPlain(e, "INSERT INTO " + t + " (", Join(", ", ColumnNames(w, cols)), ") VALUES (");
    hide Plain;
    hide PlainBounds;
    hide BoundPieces;
    hide TableSql;
    hide Join;
    hide ColumnNames;
    BoundsPlain(w, cols, false, ", ", [Fixed(")")]);
    FixedAdd(e, "INSERT INTO " + t + " (" + Join(", ", ColumnNames(w, cols)) + ") VALUES (",
             BoundPieces(w, cols, false, ", ", [Fixed(")")]));
  }

  /** Without marker characters in names, types and values, the dialog always
      shows the statement with its values in place. */
  lemma PlainStatementsAreShown(w: Names, g: Grid, edits: Edits, i: nat)
    requires Ready(g, edits) && i < |Statements(g, edits)| && PlainStatement(w, Statements(g, edits)[i])
    ensures HolesUpTo(Pieces(w, Statements(g, edits)[i]), |Statements(g, edits)[i].params|)
    ensures ShownFaithfully(w, Statements(g, edits)[i])
  {
    var s := Statements(g, edits)[i];
    StatementsNumbered(g, edits);
    assert Numbered(g, s);
    assert forall k :: 0 <= k < |s.params| ==> PlainParam(w.engine, s.params[k]);
    hide *;
    PiecesNumbered(w, g, s);
    PiecesSafe(w, s);
    SqlIsWritten(w, s);
    match s {
      case Delete(_, _) => DeletePlain(w, s);
      case Update(_, _, _) => UpdatePlain(w, s);
      case Insert(_, _) => InsertPlain(w, s);
    }
    FixedOf(w.engine, Pieces(w, s));
    PlainIsSimultaneous(w.engine, Pieces(w, s), s.params);
    FaithfulMeans(w, s);
  }

  lemma FixedOf(e: Engine, ps: seq<Piece>)
    requires FixedPlain(e, ps)
    ensures forall i :: 0 <= i < |ps| && ps[i].Fixed? ==> Plain(e, ps[i].text)
  {
  }

  /** `apply` tells inserts by how their text starts. */
  lemma InsertsAreToldByText(w: Names, s: Statement)
    ensures "INSERT" <= StatementSql(w, s) <==> s.Insert?
  {
    hide Join;
    hide TableSql;
    match s
    case Delete(key, _) => assert StatementSql(w, s)[0] == 'D';
    case Update(_, _, _) => assert StatementSql(w, s)[0] == 'U';
    case Insert(cols, _) =>
      assert "INSERT" <= "INSERT INTO ";
      assert "INSERT INTO " <= StatementSql(w, s);
  }
}

/** The review dialog's text as built: highest number first. */
module ReviewDialog {
  import opened PreviewSpec
  import opened StatementSpec

  method Inline(e: Engine, sql: string, params: seq<Param>) returns (s: string)
    ensures s == Preview(e, sql, params)
  {
    s := sql;
    var i := |params|;
    while i > 0
      invariant 0 <= i <= |params|
      invariant PreviewFrom(e, s, params, i) == Preview(e, sql, params)
    {
      hide Replace;
      hide Placeholder;
      hide Shown;
      PreviewRound(e, s, params, i);
      s := Replace(s, Placeholder(e, i), Shown(e, params[i - 1]));
      i := i - 1;
    }
  }
}
