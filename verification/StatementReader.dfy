/** Reading generated statements back: what a database makes of the text that
    `statements` writes (crates/sqail-ui/src/editing.rs:381-484) with names
    quoted as in crates/sqail-ui/src/sql/mod.rs:11-32. */
module SqlReader {
  import opened Prelude
  import opened ColumnSpec
  import opened EditSpec
  import opened StatementSpec
  import opened PreviewSpec
  import opened StatementText
  import opened Texts
  import SelectSyntax

  /** A name at the start of a text, and what follows it. */
  type Lexer = string -> Option<(string, string)>

  /** What may follow a name in a statement. */
  predicate NameEnds(rest: string) {
    rest == "" || rest[0] == '.' || rest[0] == ' ' || rest[0] == ',' || rest[0] == ')'
  }

  /** Quoted names read back, whatever they contain. */
  ghost predicate ReadsNames(w: Names, lex: Lexer) {
    forall name: string, rest: string :: NameEnds(rest) ==> lex(w.quote(name) + rest) == Some((name, rest))
  }

  predicate BareChar(c: char) {
    'a' <= c <= 'z' || '0' <= c <= '9' || c == '_'
  }

  /** A name that needs no quotes: lower-case letters, digits and underscores,
      no digit first. */
  predicate BareName(name: string) {
    name != "" && !IsDigit(name[0]) && forall i :: 0 <= i < |name| ==> BareChar(name[i])
  }

  /** `quote_ident`; `keyword` says which names are key words. */
  function QuoteIdent(keyword: string -> bool, e: Engine, name: string): string {
    if e == Mssql then "[" + SelectSyntax.Doubled(name, ']') + "]"
    else if BareName(name) && !keyword(name) then name
    else "\"" + SelectSyntax.Doubled(name, '"') + "\""
  }

  /** A quoted name up to its closing quote; a doubled one stands for itself. */
  function ReadQuoted(close: char, s: string): Option<(string, string)>
    decreases |s|
  {
    if s == "" then None
    else if s[0] != close then Before(s[0], ReadQuoted(close, s[1..]))
    else if |s| > 1 && s[1] == close then Before(close, ReadQuoted(close, s[2..]))
    else Some(("", s[1..]))
  }

  function Before(c: char, r: Option<(string, string)>): Option<(string, string)> {
    match r case None => None case Some((name, rest)) => Some(([c] + name, rest))
  }

  function BareLength(s: string): (n: nat)
    ensures n <= |s|
  {
    if s == "" || !BareChar(s[0]) then 0 else 1 + BareLength(s[1..])
  }

  /** How a database reads a name: quoted, or as long as it is bare. */
  function ReadName(e: Engine, s: string): Option<(string, string)> {
    var (open, close) := if e == Mssql then ('[', ']') else ('"', '"');
    if s != "" && s[0] == open then ReadQuoted(close, s[1..])
    else if BareLength(s) == 0 then None
    else Some((s[..BareLength(s)], s[BareLength(s)..]))
  }

  lemma {:induction false} DoubledReadsBack(close: char, name: string, rest: string)
    requires rest == "" || rest[0] != close
    ensures ReadQuoted(close, SelectSyntax.Doubled(name, close) + [close] + rest) == Some((name, rest))
  {
    var text := SelectSyntax.Doubled(name, close) + [close] + rest;
    if name == "" {
      assert text == [close] + rest;
    } else {
      var more := SelectSyntax.Doubled(name[1..], close) + [close] + rest;
      DoubledReadsBack(close, name[1..], rest);
      assert name == [name[0]] + name[1..];
      if name[0] == close {
        assert text == [close, close] + more;
        assert text[2..] == more;
      } else {
        assert text == [name[0]] + more;
        assert text[1..] == more;
      }
    }
  }

  lemma {:induction false} BareReadsBack(name: string, rest: string)
    requires (forall i :: 0 <= i < |name| ==> BareChar(name[i])) && NameEnds(rest)
    ensures BareLength(name + rest) == |name|
  {
    if name == "" {
      assert name + rest == rest;
    } else {
      assert (name + rest)[1..] == name[1..] + rest;
      BareReadsBack(name[1..], rest);
    }
  }

  lemma OpensQuote(e: Engine, tail: string)
    ensures ReadName(e, [if e == Mssql then '[' else '"'] + tail) == ReadQuoted(if e == Mssql then ']' else '"', tail)
  {
    hide ReadQuoted;
    hide BareLength;
  }

  lemma QuotesReadBack(e: Engine, name: string, rest: string)
    requires NameEnds(rest)
    ensures var (open, close) := if e == Mssql then ('[', ']') else ('"', '"');
            ReadName(e, [open] + SelectSyntax.Doubled(name, close) + [close] + rest) == Some((name, rest))
  {
    var (open, close) := if e == Mssql then ('[', ']') else ('"', '"');
    var inner := SelectSyntax.Doubled(name, close);
    DoubledReadsBack(close, name, rest);
    OpensQuote(e, inner + [close] + rest);
    hide *;
    ThreeJoin([open], inner, [close], rest);
  }

  lemma ThreeJoin(a: string, b: string, c: string, d: string)
    ensures a + b + c + d == a + (b + c + d)
  {
  }

  lemma BareNameReadsBack(e: Engine, name: string, rest: string)
    requires e != Mssql && BareName(name) && NameEnds(rest)
    ensures ReadName(e, name + rest) == Some((name, rest))
  {
    BareReadsBack(name, rest);
    assert BareChar(name[0]) && (name + rest)[0] == name[0];
    hide ReadQuoted;
    hide BareLength;
    assert (name + rest)[..|name|] == name && (name + rest)[|name|..] == rest;
  }

  /** `quote_ident` is read back by every engine, whatever the name and the
      key words are. */
  lemma QuotedNamesReadBack(keyword: string -> bool, e: Engine, name: string, rest: string)
    requires NameEnds(rest)
    ensures ReadName(e, QuoteIdent(keyword, e, name) + rest) == Some((name, rest))
  {
    if e != Mssql && BareName(name) && !keyword(name) {
      BareNameReadsBack(e, name, rest);
    } else {
      QuotesReadBack(e, name, rest);
      assert QuoteIdent(keyword, e, name) ==
             if e == Mssql then ['['] + SelectSyntax.Doubled(name, ']') + [']']
             else ['"'] + SelectSyntax.Doubled(name, '"') + ['"'];
    }
    hide ReadName;
  }

  lemma QuoteIdentIsRead(keyword: string -> bool, w: Names)
    requires forall name :: w.quote(name) == QuoteIdent(keyword, w.engine, name)
    ensures ReadsNames(w, s => ReadName(w.engine, s))
  {
    var lex: Lexer := s => ReadName(w.engine, s);
    hide ReadName;
    hide QuoteIdent;
    forall name: string, rest: string | NameEnds(rest) ensures lex(w.quote(name) + rest) == Some((name, rest)) {
      QuotedNamesReadBack(keyword, w.engine, name, rest);
    }
  }

  datatype TableName = TableName(schema: Option<string>, table: string)

  /** A placeholder: its number, and the type it is cast to. */
  datatype Place = Place(n: nat, cast: string)
  datatype Equation = Equation(column: string, place: Place)

  /** A statement as it is understood. */
  datatype Reading =
    | Deletes(table: TableName, key: seq<Equation>)
    | Updates(table: TableName, sets: seq<Equation>, key: seq<Equation>)
    | Inserts(table: TableName, columns: seq<string>, places: seq<Place>)

  /** The text after a prefix. */
  function Past(prefix: string, s: string): Option<string> {
    if prefix <= s then Some(s[|prefix|..]) else None
  }

  function ReadTable(lex: Lexer, s: string): Option<(TableName, string)> {
    match lex(s)
    case None => None
    case Some((first, rest)) =>
      if rest != "" && rest[0] == '.' then
        match lex(rest[1..])
        case None => None
        case Some((second, after)) => Some((TableName(Some(first), second), after))
      else Some((TableName(None, first), rest))
  }

  function DigitsLength(s: string): (n: nat)
    ensures n <= |s|
  {
    if s == "" || !IsDigit(s[0]) then 0 else 1 + DigitsLength(s[1..])
  }

  /** A placeholder as the engine knows it; PostgreSQL's is cast from text. */
  function ReadPlace(e: Engine, s: string): Option<Place> {
    var digits := match e case Postgres => Past("$", s) case Mssql => Past("@P", s) case _ => Past("?", s);
    if digits.None? || DigitsLength(digits.value) == 0 then None
    else
      var k := DigitsLength(digits.value);
      var (n, after) := (Number(digits.value[..k]), digits.value[k..]);
      if e == Postgres then
        match Past("::text::", after)
        case None => None
        case Some(cast) => Some(Place(n, cast))
      else if after == "" then Some(Place(n, "")) else None
  }

  /** A comma, AND or WHERE begins here. */
  predicate StartsSeparator(s: string) {
    ", " <= s || " AND " <= s || " WHERE " <= s
  }

  function RawLength(s: string): (n: nat)
    ensures n <= |s|
  {
    if s == "" || StartsSeparator(s) then 0 else 1 + RawLength(s[1..])
  }

  /** `column = placeholder`, with `sep` between them. */
  function ReadEquations(e: Engine, lex: Lexer, sep: string, s: string): Option<(seq<Equation>, string)>
    decreases |s|
  {
    match lex(s)
    case None => None
    case Some((column, rest)) =>
      match Past(" = ", rest)
      case None => None
      case Some(after) =>
        if |rest| > |s| then None
        else
          var n := RawLength(after);
          match ReadPlace(e, after[..n])
          case None => None
          case Some(place) =>
            match Past(sep, after[n..])
            case None => Some(([Equation(column, place)], after[n..]))
            case Some(more) =>
              match ReadEquations(e, lex, sep, more)
              case None => None
              case Some((equations, end)) => Some(([Equation(column, place)] + equations, end))
  }

  /** Names with commas between them. */
  function ReadColumns(lex: Lexer, s: string): Option<(seq<string>, string)>
    decreases |s|
  {
    match lex(s)
    case None => None
    case Some((column, rest)) =>
      if |rest| > |s| then None
      else
        match Past(", ", rest)
        case None => Some(([column], rest))
        case Some(more) =>
          match ReadColumns(lex, more)
          case None => None
          case Some((columns, end)) => Some(([column] + columns, end))
  }

  /** Placeholders with commas between them, up to the end. */
  function ReadPlaces(e: Engine, s: string): Option<seq<Place>>
    decreases |s|
  {
    var n := RawLength(s);
    match ReadPlace(e, s[..n])
    case None => None
    case Some(place) =>
      if s[n..] == "" then Some([place])
      else
        match Past(", ", s[n..])
        case None => None
        case Some(more) =>
          match ReadPlaces(e, more)
          case None => None
          case Some(places) => Some([place] + places)
  }

  /** The key of a statement, up to its end. */
  function ReadKey(e: Engine, lex: Lexer, s: string): Option<seq<Equation>> {
    match ReadEquations(e, lex, " AND ", s)
    case Some((key, end)) => if end == "" then Some(key) else None
    case None => None
  }

  function ReadDelete(e: Engine, lex: Lexer, s: string): Option<Reading> {
    match ReadTable(lex, s)
    case None => None
    case Some((table, rest)) =>
      match Past(" WHERE ", rest)
      case None => None
      case Some(after) =>
        var key := ReadKey(e, lex, after);
        if key.None? then None else Some(Deletes(table, key.value))
  }

  function ReadUpdate(e: Engine, lex: Lexer, s: string): Option<Reading> {
    match ReadTable(lex, s)
    case None => None
    case Some((table, rest)) =>
      match Past(" SET ", rest)
      case None => None
      case Some(after) =>
        match ReadEquations(e, lex, ", ", after)
        case None => None
        case Some((sets, more)) =>
          match Past(" WHERE ", more)
          case None => None
          case Some(last) =>
            var key := ReadKey(e, lex, last);
            if key.None? then None else Some(Updates(table, sets, key.value))
  }

  function ReadInsert(e: Engine, lex: Lexer, s: string): Option<Reading> {
    match ReadTable(lex, s)
    case None => None
    case Some((table, rest)) =>
      if rest == " DEFAULT VALUES" then Some(Inserts(table, [], []))
      else
        match Past(" (", rest)
        case None => None
        case Some(after) =>
          match ReadColumns(lex, after)
          case None => None
          case Some((columns, more)) =>
            match Past(") VALUES (", more)
            case None => None
            case Some(last) =>
              if last == "" || last[|last| - 1] != ')' then None
              else
                var places := ReadPlaces(e, last[..|last| - 1]);
                if places.None? then None else Some(Inserts(table, columns, places.value))
  }

  /** What a statement says. */
  function Read(e: Engine, lex: Lexer, s: string): Option<Reading> {
    if "DELETE FROM " <= s then ReadDelete(e, lex, s[|"DELETE FROM "|..])
    else if "UPDATE " <= s then ReadUpdate(e, lex, s[|"UPDATE "|..])
    else if "INSERT INTO " <= s then ReadInsert(e, lex, s[|"INSERT INTO "|..])
    else None
  }

  /** The table that is edited; "main" is SQLite's own schema. */
  function EditedTable(w: Names): TableName {
    TableName(if w.engine == Sqlite && w.schema == Some("main") then None else w.schema, w.table)
  }

  function CastOf(w: Names, b: Bound): string {
    if w.engine == Postgres then b.col.dataType else ""
  }

  function MeantEquations(w: Names, bs: seq<Bound>): seq<Equation> {
    seq(|bs|, i requires 0 <= i < |bs| => Equation(bs[i].col.name, Place(bs[i].n, CastOf(w, bs[i]))))
  }

  function MeantPlaces(w: Names, bs: seq<Bound>): seq<Place> {
    seq(|bs|, i requires 0 <= i < |bs| => Place(bs[i].n, CastOf(w, bs[i])))
  }

  function MeantColumns(bs: seq<Bound>): seq<string> {
    seq(|bs|, i requires 0 <= i < |bs| => bs[i].col.name)
  }

  /** What the statement is meant to say. */
  function Meant(w: Names, s: Statement): Reading {
    match s
    case Delete(key, _) => Deletes(EditedTable(w), MeantEquations(w, key))
    case Update(sets, key, _) => Updates(EditedTable(w), MeantEquations(w, sets), MeantEquations(w, key))
    case Insert(cols, _) => Inserts(EditedTable(w), MeantColumns(cols), MeantPlaces(w, cols))
  }

  /** A type that cannot be read as ending early. */
  ghost predicate TypeReads(t: string) {
    forall i :: 0 <= i < |t| ==> !StartsSeparator((t + " ")[i..])
  }

  ghost predicate TypesRead(w: Names, bs: seq<Bound>) {
    w.engine == Postgres ==> forall i :: 0 <= i < |bs| ==> TypeReads(bs[i].col.dataType)
  }

  /** A separator that begins in `raw` does so whatever follows `raw`. */
  lemma StartsAt(raw: string, more: string, i: nat)
    requires i < |raw| && (more == "" || more[0] == ' ' || more[0] == ',')
    ensures StartsSeparator((raw + more)[i..]) ==> StartsSeparator((raw + " ")[i..])
  {
    var (s, t) := ((raw + more)[i..], (raw + " ")[i..]);
    assert forall k :: 0 <= k < |raw| - i ==> s[k] == t[k] == raw[i + k];
    assert |s| > |raw| - i ==> s[|raw| - i] == more[0];
    assert t[|raw| - i] == ' ' && |t| == |raw| - i + 1;
    if ", " <= s {
      assert s[0] == ',' && s[1] == ' ';
    } else if " AND " <= s {
      assert s[0] == ' ' && s[1] == 'A' && s[2] == 'N' && s[3] == 'D' && s[4] == ' ';
    } else if " WHERE " <= s {
      assert s[0] == ' ' && s[1] == 'W' && s[2] == 'H' && s[3] == 'E' && s[4] == 'R' && s[5] == 'E' && s[6] == ' ';
    }
  }

  lemma {:induction false} RawLengthIs(raw: string, more: string)
    requires TypeReads(raw) && (more == "" || StartsSeparator(more))
    ensures RawLength(raw + more) == |raw|
  {
    if raw == "" {
      assert raw + more == more;
    } else {
      StartsAt(raw, more, 0);
      assert (raw + more)[0..] == raw + more && !StartsSeparator((raw + " ")[0..]);
      assert (raw + more)[1..] == raw[1..] + more;
      TailReads(raw);
      RawLengthIs(raw[1..], more);
    }
  }

  lemma TailReads(raw: string)
    requires raw != "" && TypeReads(raw)
    ensures TypeReads(raw[1..])
  {
    forall i | 0 <= i < |raw[1..]| ensures !StartsSeparator((raw[1..] + " ")[i..]) {
      assert (raw[1..] + " ")[i..] == (raw + " ")[i + 1..];
    }
  }

  /** Neither blanks nor commas are in a placeholder. */
  lemma PlaceReads(w: Names, b: Bound)
    requires w.engine == Postgres ==> TypeReads(b.col.dataType)
    ensures TypeReads(PlaceSql(w, b))
  {
    var (place, raw) := (Placeholder(w.engine, b.n), PlaceSql(w, b));
    PlaceholderShape(w.engine, b.n);
    hide Placeholder;
    forall i | 0 <= i < |raw| ensures !StartsSeparator((raw + " ")[i..]) {
      if i < |place| {
        assert (raw + " ")[i..][0] == place[i];
        assert place[i] != ' ' && place[i] != ',';
      } else {
        assert w.engine == Postgres;
        assert (raw + " ")[i..] == (b.col.dataType + " ")[i - |place|..];
      }
    }
  }

  lemma {:induction false} DigitsLengthIs(digits: string, rest: string)
    requires (forall i :: 0 <= i < |digits| ==> IsDigit(digits[i])) && (rest == "" || !IsDigit(rest[0]))
    ensures DigitsLength(digits + rest) == |digits|
  {
    if digits == "" {
      assert digits + rest == rest;
    } else {
      assert (digits + rest)[1..] == digits[1..] + rest;
      DigitsLengthIs(digits[1..], rest);
    }
  }

  lemma PastPrefix(prefix: string, rest: string)
    ensures Past(prefix, prefix + rest) == Some(rest)
  {
  }

  lemma PlaceReadsBack(w: Names, b: Bound)
    ensures ReadPlace(w.engine, PlaceSql(w, b)) == Some(Place(b.n, CastOf(w, b)))
  {
    var e := w.engine;
    var mark := match e case Postgres => "$" case Mssql => "@P" case _ => "?";
    var end := if e == Postgres then "::text::" + b.col.dataType else "";
    var digits := Dec(b.n);
    DecIsNumber(b.n);
    DigitsLengthIs(digits, end);
    assert PlaceSql(w, b) == mark + (digits + end);
    hide Dec;
    hide Number;
    hide DigitsLength;
    hide PlaceSql;
    PastPrefix(mark, digits + end);
    assert (digits + end)[..|digits|] == digits && (digits + end)[|digits|..] == end;
    PastPrefix("::text::", b.col.dataType);
  }

  lemma NameReadsBack(w: Names, lex: Lexer, name: string, rest: string)
    requires ReadsNames(w, lex) && NameEnds(rest)
    ensures lex(w.quote(name) + rest) == Some((name, rest))
  {
  }

  /** The table's name is read back with its schema. */
  lemma TableReadsBack(w: Names, lex: Lexer, rest: string)
    requires ReadsNames(w, lex) && rest != "" && rest[0] == ' '
    ensures ReadTable(lex, TableSql(w) + rest) == Some((EditedTable(w), rest))
  {
    if w.schema.Some? && !(w.engine == Sqlite && w.schema.value == "main") {
      var after := "." + w.quote(w.table) + rest;
      NameReadsBack(w, lex, w.schema.value, after);
      NameReadsBack(w, lex, w.table, rest);
      hide ReadsNames;
      assert TableSql(w) + rest == w.quote(w.schema.value) + after;
      assert after[1..] == w.quote(w.table) + rest;
    } else {
      NameReadsBack(w, lex, w.table, rest);
    }
  }

  function MeantEquation(w: Names, b: Bound): Equation {
    Equation(b.col.name, Place(b.n, CastOf(w, b)))
  }

  lemma EquationParts(w: Names, b: Bound, tail: string)
    ensures EquationSql(w, b) + tail == w.quote(b.col.name) + (" = " + (PlaceSql(w, b) + tail))
  {
    hide PlaceSql;
  }

  /** The first of several equations. */
  lemma FirstEquation(w: Names, lex: Lexer, sep: string, b: Bound, tail: string)
    requires ReadsNames(w, lex) && (tail == "" || StartsSeparator(tail)) && (w.engine == Postgres ==> TypeReads(b.col.dataType))
    ensures ReadEquations(w.engine, lex, sep, EquationSql(w, b) + tail) ==
            if Past(sep, tail).None? then Some(([MeantEquation(w, b)], tail))
            else
              var more := ReadEquations(w.engine, lex, sep, Past(sep, tail).value);
              if more.None? then None else Some(([MeantEquation(w, b)] + more.value.0, more.value.1))
  {
    var place := PlaceSql(w, b);
    var rest := " = " + (place + tail);
    assert NameEnds(rest);
    EquationParts(w, b, tail);
    NameReadsBack(w, lex, b.col.name, rest);
    PlaceReads(w, b);
    PlaceReadsBack(w, b);
    RawLengthIs(place, tail);
    PastPrefix(" = ", place + tail);
    hide PlaceSql;
    hide ReadPlace;
    hide RawLength;
    hide TypeReads;
    hide StartsSeparator;
    hide Past;
    hide EquationSql;
    hide ReadsNames;
    hide NameEnds;
    assert (place + tail)[..|place|] == place && (place + tail)[|place|..] == tail;
  }

  predicate Separates(sep: string, rest: string) {
    (sep == ", " || sep == " AND ") && (rest == "" || " WHERE " <= rest)
  }

  lemma SeparatorsDiffer(sep: string, rest: string)
    requires Separates(sep, rest)
    ensures Past(sep, rest) == None && (rest == "" || StartsSeparator(rest))
    ensures forall more: string :: StartsSeparator(sep + more)
  {
    if rest != "" {
      assert rest[0] == ' ' && rest[1] == 'W';
    }
    assert ", "[0] == ',' && " AND "[1] == 'A';
  }

  lemma FirstOfEquations(w: Names, sep: string, bs: seq<Bound>)
    requires bs != []
    ensures Join(sep, Equations(w, bs)) ==
            EquationSql(w, bs[0]) + if |bs| == 1 then "" else sep + Join(sep, Equations(w, bs[1..]))
    ensures MeantEquations(w, bs) == [MeantEquation(w, bs[0])] + if |bs| == 1 then [] else MeantEquations(w, bs[1..])
  {
    var parts := Equations(w, bs);
    assert parts[0] == EquationSql(w, bs[0]) && parts[1..] == Equations(w, bs[1..]) && |parts| == |bs|;
    hide EquationSql;
    JoinFirst(parts, sep);
    hide Join;
  }

  lemma FirstTypeReads(w: Names, bs: seq<Bound>)
    requires TypesRead(w, bs) && bs != []
    ensures (w.engine == Postgres ==> TypeReads(bs[0].col.dataType)) && TypesRead(w, bs[1..])
  {
    hide TypeReads;
  }

  lemma {:induction false} EquationsReadBack(w: Names, lex: Lexer, sep: string, bs: seq<Bound>, rest: string)
    requires ReadsNames(w, lex) && TypesRead(w, bs) && bs != [] && Separates(sep, rest)
    ensures ReadEquations(w.engine, lex, sep, Join(sep, Equations(w, bs)) + rest) == Some((MeantEquations(w, bs), rest))
    decreases |bs|
  {
    hide *;
    SeparatorsDiffer(sep, rest);
    FirstTypeReads(w, bs);
    FirstOfEquations(w, sep, bs);
    var first := EquationSql(w, bs[0]);
    if |bs| == 1 {
      assert first + "" == first;
      assert [MeantEquation(w, bs[0])] + [] == [MeantEquation(w, bs[0])];
      FirstEquation(w, lex, sep, bs[0], rest);
    } else {
      var more := Join(sep, Equations(w, bs[1..]));
      EquationsReadBack(w, lex, sep, bs[1..], rest);
      Regroup(first, sep, more, rest);
      ConcatAssoc(first, sep + more, rest);
      ConcatAssoc(sep, more, rest);
      PastPrefix(sep, more + rest);
      FirstEquation(w, lex, sep, bs[0], sep + (more + rest));
    }
  }

  lemma FirstOfColumns(w: Names, bs: seq<Bound>)
    requires bs != []
    ensures Join(", ", ColumnNames(w, bs)) ==
            w.quote(bs[0].col.name) + if |bs| == 1 then "" else ", " + Join(", ", ColumnNames(w, bs[1..]))
    ensures MeantColumns(bs) == [bs[0].col.name] + if |bs| == 1 then [] else MeantColumns(bs[1..])
  {
    var parts := ColumnNames(w, bs);
    assert parts[0] == w.quote(bs[0].col.name) && parts[1..] == ColumnNames(w, bs[1..]) && |parts| == |bs|;
    JoinFirst(parts, ", ");
    hide Join;
  }

  lemma FirstColumn(w: Names, lex: Lexer, name: string, tail: string)
    requires ReadsNames(w, lex) && NameEnds(tail)
    ensures ReadColumns(lex, w.quote(name) + tail) ==
            if Past(", ", tail).None? then Some(([name], tail))
            else
              var more := ReadColumns(lex, Past(", ", tail).value);
              if more.None? then None else Some(([name] + more.value.0, more.value.1))
  {
    NameReadsBack(w, lex, name, tail);
    hide ReadsNames;
    hide Past;
  }

  lemma {:induction false} ColumnsReadBack(w: Names, lex: Lexer, bs: seq<Bound>, rest: string)
    requires ReadsNames(w, lex) && bs != [] && rest != "" && rest[0] == ')'
    ensures ReadColumns(lex, Join(", ", ColumnNames(w, bs)) + rest) == Some((MeantColumns(bs), rest))
    decreases |bs|
  {
    assert NameEnds(rest) && Past(", ", rest) == None;
    hide *;
    FirstOfColumns(w, bs);
    var first := w.quote(bs[0].col.name);
    if |bs| == 1 {
      assert first + "" == first;
      assert [bs[0].col.name] + [] == [bs[0].col.name];
      FirstColumn(w, lex, bs[0].col.name, rest);
    } else {
      var more := Join(", ", ColumnNames(w, bs[1..]));
      ColumnsReadBack(w, lex, bs[1..], rest);
      ConcatAssoc(first, ", " + more, rest);
      ConcatAssoc(", ", more, rest);
      PastPrefix(", ", more + rest);
      assert NameEnds(", " + (more + rest)) by {
        CommaEnds(more + rest);
      }
      FirstColumn(w, lex, bs[0].col.name, ", " + (more + rest));
    }
  }

  lemma CommaEnds(rest: string)
    ensures NameEnds(", " + rest) && StartsSeparator(", " + rest) && ", " + rest != ""
  {
  }

  lemma FirstOfPlaces(w: Names, bs: seq<Bound>)
    requires bs != []
    ensures Join(", ", Places(w, bs)) == PlaceSql(w, bs[0]) + if |bs| == 1 then "" else ", " + Join(", ", Places(w, bs[1..]))
    ensures MeantPlaces(w, bs) ==
            [Place(bs[0].n, CastOf(w, bs[0]))] + if |bs| == 1 then [] else MeantPlaces(w, bs[1..])
  {
    var parts := Places(w, bs);
    assert parts[0] == PlaceSql(w, bs[0]) && parts[1..] == Places(w, bs[1..]) && |parts| == |bs|;
    hide PlaceSql;
    JoinFirst(parts, ", ");
    hide Join;
  }

  lemma FirstPlace(w: Names, b: Bound, tail: string)
    requires (w.engine == Postgres ==> TypeReads(b.col.dataType)) && (tail == "" || StartsSeparator(tail))
    ensures ReadPlaces(w.engine, PlaceSql(w, b) + tail) ==
            if tail == "" then Some([Place(b.n, CastOf(w, b))])
            else if Past(", ", tail).None? then None
            else
              var more := ReadPlaces(w.engine, Past(", ", tail).value);
              if more.None? then None else Some([Place(b.n, CastOf(w, b))] + more.value)
  {
    var place := PlaceSql(w, b);
    PlaceReads(w, b);
    PlaceReadsBack(w, b);
    RawLengthIs(place, tail);
    hide PlaceSql;
    hide ReadPlace;
    hide RawLength;
    hide TypeReads;
    hide StartsSeparator;
    hide Past;
    assert (place + tail)[..|place|] == place && (place + tail)[|place|..] == tail;
  }

  lemma {:induction false} PlacesReadBack(w: Names, bs: seq<Bound>)
    requires bs != [] && TypesRead(w, bs)
    ensures ReadPlaces(w.engine, Join(", ", Places(w, bs))) == Some(MeantPlaces(w, bs))
    decreases |bs|
  {
    hide *;
    FirstOfPlaces(w, bs);
    FirstTypeReads(w, bs);
    if |bs| == 1 {
      assert [Place(bs[0].n, CastOf(w, bs[0]))] + [] == [Place(bs[0].n, CastOf(w, bs[0]))];
      FirstPlace(w, bs[0], "");
    } else {
      var more := Join(", ", Places(w, bs[1..]));
      PlacesReadBack(w, bs[1..]);
      CommaEnds(more);
      PastPrefix(", ", more);
      FirstPlace(w, bs[0], ", " + more);
    }
  }

  /** A statement has a key to look for and, if it is an update, a column to
      set. */
  predicate WellMade(s: Statement) {
    match s
    case Delete(key, _) => key != []
    case Update(sets, key, _) => sets != [] && key != []
    case Insert(_, _) => true
  }

  lemma KeyReadsBack(w: Names, lex: Lexer, key: seq<Bound>)
    requires ReadsNames(w, lex) && TypesRead(w, key) && key != []
    ensures ReadKey(w.engine, lex, Join(" AND ", Equations(w, key))) == Some(MeantEquations(w, key))
  {
    EquationsReadBack(w, lex, " AND ", key, "");
    hide *;
    assert Join(" AND ", Equations(w, key)) + "" == Join(" AND ", Equations(w, key));
    KeyIs(w.engine, lex, Join(" AND ", Equations(w, key)), MeantEquations(w, key));
  }

  lemma KeyIs(e: Engine, lex: Lexer, s: string, key: seq<Equation>)
    requires ReadEquations(e, lex, " AND ", s) == Some((key, ""))
    ensures ReadKey(e, lex, s) == Some(key)
  {
  }

  lemma DeleteReadsBack(w: Names, lex: Lexer, s: Statement)
    requires s.Delete? && WellMade(s) && ReadsNames(w, lex) && TypesRead(w, s.key)
    ensures Read(w.engine, lex, StatementSql(w, s)) == Some(Meant(w, s))
  {
    var key := Join(" AND ", Equations(w, s.key));
    TableReadsBack(w, lex, " WHERE " + key);
    KeyReadsBack(w, lex, s.key);
    PastPrefix(" WHERE ", key);
    assert StatementSql(w, s) == "DELETE FROM " + (TableSql(w) + (" WHERE " + key));
    hide *;
    ReadsDelete(w.engine, lex, TableSql(w) + (" WHERE " + key));
    DeleteIs(w.engine, lex, TableSql(w) + (" WHERE " + key), EditedTable(w), key, MeantEquations(w, s.key));
    MeantIs(w, s);
  }

  lemma MeantIs(w: Names, s: Statement)
    ensures Meant(w, s) ==
            match s
            case Delete(key, _) => Deletes(EditedTable(w), MeantEquations(w, key))
            case Update(sets, key, _) => Updates(EditedTable(w), MeantEquations(w, sets), MeantEquations(w, key))
            case Insert(cols, _) => Inserts(EditedTable(w), MeantColumns(cols), MeantPlaces(w, cols))
  {
  }

  lemma ReadsDelete(e: Engine, lex: Lexer, rest: string)
    ensures Read(e, lex, "DELETE FROM " + rest) == ReadDelete(e, lex, rest)
  {
    hide ReadDelete;
    assert ("DELETE FROM " + rest)[|"DELETE FROM "|..] == rest;
  }

  lemma DeleteIs(e: Engine, lex: Lexer, s: string, table: TableName, key: string, equations: seq<Equation>)
    requires ReadTable(lex, s) == Some((table, " WHERE " + key)) && Past(" WHERE ", " WHERE " + key) == Some(key)
    requires ReadKey(e, lex, key) == Some(equations)
    ensures ReadDelete(e, lex, s) == Some(Deletes(table, equations))
  {
    hide ReadTable;
    hide ReadKey;
    hide Past;
  }

  lemma UpdateReadsBack(w: Names, lex: Lexer, s: Statement)
    requires s.Update? && WellMade(s) && ReadsNames(w, lex) && TypesRead(w, s.sets) && TypesRead(w, s.key)
    ensures Read(w.engine, lex, StatementSql(w, s)) == Some(Meant(w, s))
  {
    var (sets, key) := (Join(", ", Equations(w, s.sets)), Join(" AND ", Equations(w, s.key)));
    var after := sets + (" WHERE " + key);
    TableReadsBack(w, lex, " SET " + after);
    KeyReadsBack(w, lex, s.key);
    EquationsReadBack(w, lex, ", ", s.sets, " WHERE " + key);
    PastPrefix(" WHERE ", key);
    PastPrefix(" SET ", after);
    UpdateText(w, s);
    hide *;
    ReadsUpdate(w.engine, lex, TableSql(w) + (" SET " + after));
    UpdateIs(w.engine, lex, TableSql(w) + (" SET " + after), EditedTable(w), after, " WHERE " + key, key,
             MeantEquations(w, s.sets), MeantEquations(w, s.key));
    MeantIs(w, s);
  }

  lemma UpdateText(w: Names, s: Statement)
    requires s.Update?
    ensures StatementSql(w, s) ==
            "UPDATE " + (TableSql(w) + (" SET " + (Join(", ", Equations(w, s.sets)) +
                                                   (" WHERE " + Join(" AND ", Equations(w, s.key))))))
  {
    hide TableSql;
    hide Join;
    hide Equations;
  }

  lemma ReadsUpdate(e: Engine, lex: Lexer, rest: string)
    ensures Read(e, lex, "UPDATE " + rest) == ReadUpdate(e, lex, rest)
  {
    hide ReadUpdate;
    hide ReadDelete;
    assert ("UPDATE " + rest)[|"UPDATE "|..] == rest;
    assert ("UPDATE " + rest)[0] == 'U';
  }

  lemma UpdateIs(e: Engine, lex: Lexer, s: string, table: TableName, after: string, more: string, key: string,
                 sets: seq<Equation>, equations: seq<Equation>)
    requires ReadTable(lex, s) == Some((table, " SET " + after)) && Past(" SET ", " SET " + after) == Some(after)
    requires ReadEquations(e, lex, ", ", after) == Some((sets, more)) && Past(" WHERE ", more) == Some(key)
    requires ReadKey(e, lex, key) == Some(equations)
    ensures ReadUpdate(e, lex, s) == Some(Updates(table, sets, equations))
  {
    hide ReadTable;
    hide ReadKey;
    hide ReadEquations;
    hide Past;
  }

  lemma ReadsInsert(e: Engine, lex: Lexer, rest: string)
    ensures Read(e, lex, "INSERT INTO " + rest) == ReadInsert(e, lex, rest)
  {
    hide ReadUpdate;
    hide ReadDelete;
    hide ReadInsert;
    assert ("INSERT INTO " + rest)[|"INSERT INTO "|..] == rest;
    assert ("INSERT INTO " + rest)[0] == 'I';
  }

  lemma DefaultsReadBack(w: Names, lex: Lexer, s: Statement)
    requires s.Insert? && s.cols == [] && ReadsNames(w, lex)
    ensures Read(w.engine, lex, StatementSql(w, s)) == Some(Meant(w, s))
  {
    TableReadsBack(w, lex, " DEFAULT VALUES");
    assert StatementSql(w, s) == "INSERT INTO " + (TableSql(w) + " DEFAULT VALUES") by {
      hide TableSql;
    }
    assert MeantColumns([]) == [] && MeantPlaces(w, []) == [];
    hide TableSql;
    hide ReadTable;
    hide ReadsNames;
    hide StatementSql;
    hide Read;
    ReadsInsert(w.engine, lex, TableSql(w) + " DEFAULT VALUES");
  }

  lemma InsertText(w: Names, s: Statement)
    requires s.Insert? && s.cols != []
    ensures StatementSql(w, s) ==
            "INSERT INTO " + (TableSql(w) + (" (" + (Join(", ", ColumnNames(w, s.cols)) +
                                                     (") VALUES (" + (Join(", ", Places(w, s.cols)) + ")")))))
  {
    hide TableSql;
    hide Join;
    hide ColumnNames;
    hide Places;
  }

  lemma InsertReadsBack(w: Names, lex: Lexer, s: Statement)
    requires s.Insert? && s.cols != [] && ReadsNames(w, lex) && TypesRead(w, s.cols)
    ensures Read(w.engine, lex, StatementSql(w, s)) == Some(Meant(w, s))
  {
    var (names, places) := (Join(", ", ColumnNames(w, s.cols)), Join(", ", Places(w, s.cols)));
    var values := ") VALUES (" + (places + ")");
    var after := names + values;
    TableReadsBack(w, lex, " (" + after);
    ColumnsReadBack(w, lex, s.cols, values);
    PlacesReadBack(w, s.cols);
    PastPrefix(" (", after);
    PastPrefix(") VALUES (", places + ")");
    InsertText(w, s);
    hide *;
    ReadsInsert(w.engine, lex, TableSql(w) + (" (" + after));
    InsertIs(w.engine, lex, TableSql(w) + (" (" + after), EditedTable(w), after, values, places,
             MeantColumns(s.cols), MeantPlaces(w, s.cols));
    MeantIs(w, s);
  }

  lemma InsertIs(e: Engine, lex: Lexer, s: string, table: TableName, after: string, values: string, places: string,
                 columns: seq<string>, read: seq<Place>)
    requires ReadTable(lex, s) == Some((table, " (" + after)) && Past(" (", " (" + after) == Some(after)
    requires ReadColumns(lex, after) == Some((columns, values)) && Past(") VALUES (", values) == Some(places + ")")
    requires ReadPlaces(e, places) == Some(read)
    ensures ReadInsert(e, lex, s) == Some(Inserts(table, columns, read))
  {
    hide ReadTable;
    hide ReadColumns;
    hide ReadPlaces;
    hide Past;
    assert (" (" + after)[1] == '(' && " DEFAULT VALUES"[1] == 'D';
    var last := places + ")";
    assert last[|last| - 1] == ')' && last[..|last| - 1] == places;
  }

  /** A statement is read back as what it is meant to say: the table with its
      schema, the columns, and a numbered placeholder (with its type) for each,
      joined as they must be. */
  lemma StatementReadsBack(w: Names, lex: Lexer, s: Statement)
    requires WellMade(s) && ReadsNames(w, lex) && TypesRead(w, Placeholders(s))
    ensures Read(w.engine, lex, StatementSql(w, s)) == Some(Meant(w, s))
  {
    match s
    case Delete(_, _) => hide StatementSql; DeleteReadsBack(w, lex, s);
    case Update(sets, key, _) =>
      SplitTypes(w, sets, key);
      hide *;
      UpdateReadsBack(w, lex, s);
    case Insert(cols, _) =>
      hide StatementSql;
      if cols == [] { DefaultsReadBack(w, lex, s); } else { InsertReadsBack(w, lex, s); }
  }

  lemma SplitTypes(w: Names, a: seq<Bound>, b: seq<Bound>)
    requires TypesRead(w, a + b)
    ensures TypesRead(w, a) && TypesRead(w, b)
  {
    hide TypeReads;
    if w.engine == Postgres {
      forall i | 0 <= i < |a| ensures TypeReads(a[i].col.dataType) {
        assert (a + b)[i] == a[i];
      }
      forall i | 0 <= i < |b| ensures TypeReads(b[i].col.dataType) {
        assert (a + b)[|a| + i] == b[i];
      }
    }
  }

  /** The texts of two statements name the same table exactly if table and
      schema agree; SQLite's "main" is no schema of its own. */
  lemma SameTableIff(w: Names, v: Names, lex: Lexer, s: Statement, t: Statement)
    requires WellMade(s) && WellMade(t) && w.engine == v.engine && ReadsNames(w, lex) && ReadsNames(v, lex)
    requires TypesRead(w, Placeholders(s)) && TypesRead(v, Placeholders(t))
    ensures var (r, q) := (Read(w.engine, lex, StatementSql(w, s)), Read(v.engine, lex, StatementSql(v, t)));
            r.Some? && q.Some? &&
            (r.value.table == q.value.table <==>
             w.table == v.table &&
             (w.schema == v.schema ||
              (w.engine == Sqlite && (w.schema == None || w.schema == Some("main")) && (v.schema == None || v.schema == Some("main")))))
  {
    StatementReadsBack(w, lex, s);
    StatementReadsBack(v, lex, t);
    hide Read;
    hide StatementSql;
    hide ReadsNames;
    hide TypesRead;
    hide MeantEquations;
    hide MeantColumns;
    hide MeantPlaces;
  }

  /** Every generated statement is well made. */
  lemma GeneratedIsWellMade(g: Grid, e: Edits, i: nat)
    requires Ready(g, e) && i < |Statements(g, e)|
    ensures WellMade(Statements(g, e)[i])
  {
    RowsFit(g, e);
    var (ds, us) := (DeletedRows(g, e), ChangedRows(g, e));
    hide DeletedRows;
    hide ChangedRows;
    if |ds| <= i < |ds| + |us| {
      var r := us[i - |ds|];
      assert Statements(g, e)[i] == UpdateOf(g, r, e.changes[r]);
      assert RealChange(g, r, e.changes[r]);
      UpdateIsWellMade(g, r, e.changes[r]);
    } else if i < |ds| {
      assert Statements(g, e)[i] == DeleteOf(g, ds[i]);
    }
  }

  lemma UpdateIsWellMade(g: Grid, r: nat, cells: map<nat, Value>)
    requires g.Valid() && KeyFits(g) && r < |g.rows| && ColumnsFit(g, cells) && cells != map[]
    ensures WellMade(UpdateOf(g, r, cells))
  {
    var cols := Ascending(cells.Keys, |g.target|);
    AscendingIs(cells.Keys, |g.target|);
    ColsOf(g, cells.Keys);
    ColsIn(cells.Keys, |g.target|);
    var c :| c in cells;
    assert c in cols;
    hide Ascending;
  }

  /** A value in the review dialog: NULL, or a string constant. */
  function ReadLiteral(e: Engine, s: string): Option<(Option<string>, string)> {
    if "NULL" <= s then Some((None, s[4..]))
    else
      match Past(if e == Mssql then "N'" else "'", s)
      case None => None
      case Some(after) =>
        match ReadQuoted('\'', after)
        case None => None
        case Some((text, rest)) => Some((Some(text), rest))
  }

  lemma {:induction false} EscapedIsDoubled(t: string)
    ensures Escaped(t) == SelectSyntax.Doubled(t, '\'')
  {
    if t != "" {
      EscapedIsDoubled(t[1..]);
    }
  }

  lemma OpensText(e: Engine, tail: string)
    ensures var open := if e == Mssql then "N'" else "'";
            ReadLiteral(e, open + tail) ==
            var r := ReadQuoted('\'', tail);
            if r.None? then None else Some((Some(r.value.0), r.value.1))
  {
    var open := if e == Mssql then "N'" else "'";
    PastPrefix(open, tail);
    hide ReadQuoted;
    assert (open + tail)[0] == open[0] && (e == Mssql ==> (open + tail)[1] == '\'');
  }

  /** Every value shown in the dialog reads back as itself. */
  lemma LiteralReadsBack(e: Engine, p: Param, rest: string)
    requires rest == "" || rest[0] != '\''
    ensures ReadLiteral(e, Literal(e, p) + rest) == Some((if p.NullParam? then None else Some(p.text), rest))
  {
    if p.NullParam? {
      assert ("NULL" + rest)[4..] == rest;
    } else {
      var open := if e == Mssql then "N'" else "'";
      EscapedIsDoubled(p.text);
      DoubledReadsBack('\'', p.text, rest);
      var inner := SelectSyntax.Doubled(p.text, '\'');
      assert Literal(e, p) == open + inner + ['\''];
      hide *;
      OpensText(e, inner + ['\''] + rest);
      ThreeJoin(open, inner, ['\''], rest);
    }
  }

  /** In the dialog a value stands where its placeholder did, and on
      PostgreSQL the type it is cast to still follows it. */
  lemma ShownReadsBack(e: Engine, p: Param, cast: string)
    requires cast == "" || cast[0] != '\''
    ensures ReadLiteral(e, Shown(e, p) + cast) ==
            Some((if p.NullParam? then None else Some(p.text), if e == Postgres then "::" + cast else cast))
  {
    var rest := if e == Postgres then "::" + cast else cast;
    LiteralReadsBack(e, p, rest);
    hide ReadLiteral;
    hide Literal;
    assert Shown(e, p) + cast == Literal(e, p) + rest;
  }

  lemma TableMeant(w: Names, s: Statement)
    ensures Meant(w, s).table == EditedTable(w)
  {
    hide EditedTable;
    hide MeantEquations;
    hide MeantColumns;
    hide MeantPlaces;
  }
}
