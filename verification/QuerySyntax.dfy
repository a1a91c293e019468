/** Which queries can be edited: any SELECT as a syntax tree, with joins,
    several tables, DISTINCT, grouping, windows, subqueries, INTO and set
    operations, and what `source_table` in crates/sqail-ui/src/editing.rs:36-105
    makes of it. */
module QuerySyntax {
  import opened Prelude
  import opened Sql
  import opened SelectSyntax

  /** A piece of an expression: plain tokens, a window, or a subquery. */
  datatype Part = Toks(toks: seq<Token>) | Window(frame: seq<Token>) | Subquery(query: Query)

  /** An entry of a select list: an item as in a simple SELECT, or one made of
      several parts. */
  datatype Entry = Whole(item: Item) | Made(parts: seq<Part>)

  datatype Alias = NoAlias | Alias(spelled: bool, name: Name)
  datatype Table = Named(parts: seq<Name>, alias: Alias) | Derived(query: Query, alias: Alias)

  /** What may follow the first table: `how` are the words before JOIN or
      APPLY, like LEFT OUTER or CROSS. */
  datatype Link =
    | Comma(table: Table)
    | Join(how: seq<Token>, table: Table, on: seq<Part>)
    | Apply(how: seq<Token>, table: Table)
    | Pivot(back: bool, spec: seq<Token>)

  datatype Section = Where | OrderBy | Limit | Offset | Fetch | GroupBy | Having
  datatype Clause = Clause(section: Section, parts: seq<Part>)
  datatype Quantifier = NoQuantifier | AllRows | DistinctRows
  datatype Combined = Alone | Union(query: Query) | Intersect(query: Query) | Except(query: Query)

  datatype Query = Query(quantifier: Quantifier, top: Top, items: seq<Entry>, into: Option<Name>, table: Table,
                         links: seq<Link>, clauses: seq<Clause>, combined: Combined)

  /** `text` is `word`, each letter in upper or lower case. */
  predicate Spells(text: string, word: string) {
    |text| == |word| &&
    forall i :: 0 <= i < |word| ==> text[i] == word[i] || ('A' <= word[i] <= 'Z' && text[i] == word[i] - 'A' + 'a')
  }

  const ALL_KEYWORDS: set<string> := {
    "SELECT", "FROM", "ALL", "TOP", "PERCENT", "WITH", "TIES", "DISTINCT", "INTO", "AS", "JOIN", "APPLY", "PIVOT",
    "UNPIVOT", "OVER", "WHERE", "ORDER", "LIMIT", "OFFSET", "FETCH", "GROUP", "HAVING", "UNION", "INTERSECT", "EXCEPT"}

  ghost predicate SpellsAll(spell: string -> string) {
    forall w :: w in ALL_KEYWORDS ==> Spells(spell(w), w)
  }

  function Key(spell: string -> string, word: string): Token {
    Token(Word, spell(word))
  }

  function SectionWord(s: Section): string {
    match s
    case Where => "WHERE"
    case OrderBy => "ORDER"
    case Limit => "LIMIT"
    case Offset => "OFFSET"
    case Fetch => "FETCH"
    case GroupBy => "GROUP"
    case Having => "HAVING"
  }

  function PrintPart(spell: string -> string, p: Part): seq<Token>
    decreases p, 1
  {
    match p
    case Toks(toks) => toks
    case Window(frame) => [Key(spell, "OVER"), OPEN] + frame + [CLOSE]
    case Subquery(query) => [OPEN] + PrintQuery(spell, query) + [CLOSE]
  }

  function PrintParts(spell: string -> string, ps: seq<Part>): seq<Token>
    decreases ps, 2
  {
    if ps == [] then [] else PrintPart(spell, ps[0]) + PrintParts(spell, ps[1..])
  }

  function PrintEntry(spell: string -> string, e: Entry): seq<Token>
    decreases e, 3
  {
    match e case Whole(item) => PrintItem(item) case Made(parts) => PrintParts(spell, parts)
  }

  function PrintEntries(spell: string -> string, es: seq<Entry>): seq<Token>
    decreases es, 4
  {
    if es == [] then []
    else PrintEntry(spell, es[0]) + if |es| == 1 then [] else [COMMA] + PrintEntries(spell, es[1..])
  }

  function PrintAlias(spell: string -> string, a: Alias): seq<Token> {
    match a
    case NoAlias => []
    case Alias(spelled, name) => (if spelled then [Key(spell, "AS")] else []) + [NameToken(name)]
  }

  function PrintTableRef(spell: string -> string, t: Table): seq<Token>
    decreases t, 5
  {
    match t
    case Named(parts, alias) => (if parts == [] then [] else PrintTable(parts)) + PrintAlias(spell, alias)
    case Derived(query, alias) => [OPEN] + PrintQuery(spell, query) + [CLOSE] + PrintAlias(spell, alias)
  }

  function PrintLink(spell: string -> string, l: Link): seq<Token>
    decreases l, 6
  {
    match l
    case Comma(table) => [COMMA] + PrintTableRef(spell, table)
    case Join(how, table, on) => how + [Key(spell, "JOIN")] + PrintTableRef(spell, table) + PrintParts(spell, on)
    case Apply(how, table) => how + [Key(spell, "APPLY")] + PrintTableRef(spell, table)
    case Pivot(back, spec) => [Key(spell, if back then "UNPIVOT" else "PIVOT")] + spec
  }

  function PrintLinks(spell: string -> string, ls: seq<Link>): seq<Token>
    decreases ls, 7
  {
    if ls == [] then [] else PrintLink(spell, ls[0]) + PrintLinks(spell, ls[1..])
  }

  function PrintClause(spell: string -> string, c: Clause): seq<Token>
    decreases c, 8
  {
    [Key(spell, SectionWord(c.section))] + PrintParts(spell, c.parts)
  }

  function PrintClauses(spell: string -> string, cs: seq<Clause>): seq<Token>
    decreases cs, 9
  {
    if cs == [] then [] else PrintClause(spell, cs[0]) + PrintClauses(spell, cs[1..])
  }

  function PrintCombined(spell: string -> string, c: Combined): seq<Token>
    decreases c, 10
  {
    match c
    case Alone => []
    case Union(query) => [Key(spell, "UNION")] + PrintQuery(spell, query)
    case Intersect(query) => [Key(spell, "INTERSECT")] + PrintQuery(spell, query)
    case Except(query) => [Key(spell, "EXCEPT")] + PrintQuery(spell, query)
  }

  function PrintQuantifier(spell: string -> string, q: Quantifier): seq<Token> {
    match q
    case NoQuantifier => []
    case AllRows => [Key(spell, "ALL")]
    case DistinctRows => [Key(spell, "DISTINCT")]
  }

  function TopWords(spell: string -> string, percent: bool, ties: bool): seq<Token> {
    (if percent then [Key(spell, "PERCENT")] else []) + (if ties then [Key(spell, "WITH"), Key(spell, "TIES")] else [])
  }

  function PrintTopOf(spell: string -> string, top: Top): seq<Token> {
    match top
    case NoTop => []
    case TopNumber(n, percent, ties) => [Key(spell, "TOP"), n] + TopWords(spell, percent, ties)
    case TopGroup(inner, percent, ties) => [Key(spell, "TOP"), OPEN] + inner + [CLOSE] + TopWords(spell, percent, ties)
  }

  /** From SELECT to FROM, and after it. */
  function PrintHeadOf(spell: string -> string, q: Query): seq<Token>
    decreases q, 11
  {
    PrintQuantifier(spell, q.quantifier) + PrintTopOf(spell, q.top) + PrintEntries(spell, q.items) +
    if q.into.Some? then [Key(spell, "INTO"), NameToken(q.into.value)] else []
  }

  function PrintRestOf(spell: string -> string, q: Query): seq<Token>
    decreases q, 11
  {
    PrintTableRef(spell, q.table) + PrintLinks(spell, q.links) + PrintClauses(spell, q.clauses) +
    PrintCombined(spell, q.combined)
  }

  function PrintQuery(spell: string -> string, q: Query): seq<Token>
    decreases q, 12
  {
    [Key(spell, "SELECT")] + PrintHeadOf(spell, q) + [Key(spell, "FROM")] + PrintRestOf(spell, q)
  }

  predicate PlainParts(ps: seq<Part>) {
    forall i :: 0 <= i < |ps| ==> ps[i].Toks?
  }

  predicate SimpleClause(c: Clause) {
    c.section != GroupBy && c.section != Having && PlainParts(c.parts)
  }

  /** One table, nothing combined, grouped, windowed or nested, no DISTINCT
      and no INTO. */
  predicate Simple(q: Query) {
    q.quantifier != DistinctRows && (forall i :: 0 <= i < |q.items| ==> q.items[i].Whole?) && q.into == None &&
    q.table.Named? && q.links == [] && (forall i :: 0 <= i < |q.clauses| ==> SimpleClause(q.clauses[i])) &&
    q.combined == Alone
  }

  /** A word token that is one of SQL's words for a query that is more than a
      plain SELECT from one table, or SELECT or FROM itself. */
  predicate Reserved(t: Token) {
    t.kind == Word &&
    (Spells(t.text, "SELECT") || Spells(t.text, "FROM") || Spells(t.text, "JOIN") || Spells(t.text, "GROUP") ||
     Spells(t.text, "UNION") || Spells(t.text, "INTERSECT") || Spells(t.text, "EXCEPT") || Spells(t.text, "DISTINCT") ||
     Spells(t.text, "HAVING") || Spells(t.text, "INTO") || Spells(t.text, "OVER") || Spells(t.text, "APPLY") ||
     Spells(t.text, "PIVOT") || Spells(t.text, "UNPIVOT"))
  }

  /** A word token that begins what follows the tables. */
  predicate Ending(t: Token) {
    t.kind == Word &&
    (Spells(t.text, "WHERE") || Spells(t.text, "ORDER") || Spells(t.text, "LIMIT") || Spells(t.text, "OFFSET") ||
     Spells(t.text, "FETCH"))
  }

  predicate AllCaps(w: string) {
    forall i :: 0 <= i < |w| ==> !('a' <= w[i] <= 'z')
  }

  /** Comparing in upper case is comparing in any case. */
  lemma UpperSpells(text: string, w: string)
    requires AllCaps(w)
    ensures Upper(text) == w <==> Spells(text, w)
  {
    if Spells(text, w) {
      assert forall i :: 0 <= i < |w| ==> Upper(text)[i] == w[i];
    }
    if Upper(text) == w {
      forall i | 0 <= i < |w| ensures text[i] == w[i] || ('A' <= w[i] <= 'Z' && text[i] == w[i] - 'A' + 'a') {
        assert UpperChar(text[i]) == Upper(text)[i];
      }
    }
  }

  lemma ReservedCaps()
    ensures AllCaps("SELECT") && AllCaps("FROM") && AllCaps("JOIN") && AllCaps("GROUP") && AllCaps("UNION")
    ensures AllCaps("INTERSECT") && AllCaps("EXCEPT") && AllCaps("DISTINCT") && AllCaps("HAVING") && AllCaps("INTO")
    ensures AllCaps("OVER") && AllCaps("APPLY") && AllCaps("PIVOT") && AllCaps("UNPIVOT")
  {
  }

  lemma EndingCaps()
    ensures AllCaps("WHERE") && AllCaps("ORDER") && AllCaps("LIMIT") && AllCaps("OFFSET") && AllCaps("FETCH")
  {
  }

  lemma OtherCaps()
    ensures AllCaps("ALL") && AllCaps("TOP") && AllCaps("PERCENT") && AllCaps("WITH") && AllCaps("TIES") && AllCaps("AS")
  {
  }

  lemma ReservedMeans(t: Token)
    ensures Reserved(t) <==> t.kind == Word && Upper(t.text) in BANNED
  {
    ReservedCaps();
    UpperSpells(t.text, "SELECT");
    UpperSpells(t.text, "FROM");
    UpperSpells(t.text, "JOIN");
    UpperSpells(t.text, "GROUP");
    UpperSpells(t.text, "UNION");
    UpperSpells(t.text, "INTERSECT");
    UpperSpells(t.text, "EXCEPT");
    UpperSpells(t.text, "DISTINCT");
    UpperSpells(t.text, "HAVING");
    UpperSpells(t.text, "INTO");
    UpperSpells(t.text, "OVER");
    UpperSpells(t.text, "APPLY");
    UpperSpells(t.text, "PIVOT");
    UpperSpells(t.text, "UNPIVOT");
    hide Upper;
    hide Spells;
    hide AllCaps;
  }

  lemma EndingMeans(t: Token)
    ensures Ending(t) <==> t.kind == Word && Upper(t.text) in TAIL_WORDS
  {
    EndingCaps();
    UpperSpells(t.text, "WHERE");
    UpperSpells(t.text, "ORDER");
    UpperSpells(t.text, "LIMIT");
    UpperSpells(t.text, "OFFSET");
    UpperSpells(t.text, "FETCH");
    hide Upper;
    hide Spells;
    hide AllCaps;
  }

  /** Some token reads as this word. */
  ghost predicate Has(toks: seq<Token>, w: string) {
    exists i :: 0 <= i < |toks| && IsWord(toks[i], w)
  }

  lemma HasAt(toks: seq<Token>, i: nat, w: string)
    requires i < |toks| && IsWord(toks[i], w)
    ensures Has(toks, w)
  {
  }

  lemma HasJoin(a: seq<Token>, b: seq<Token>, w: string)
    ensures Has(a, w) || Has(b, w) ==> Has(a + b, w)
  {
    hide IsWord;
    if Has(a, w) {
      var i :| 0 <= i < |a| && IsWord(a[i], w);
      assert (a + b)[i] == a[i];
    }
    if Has(b, w) {
      var i :| 0 <= i < |b| && IsWord(b[i], w);
      assert (a + b)[|a| + i] == b[i];
    }
  }

  lemma {:induction false} HasCounts(toks: seq<Token>, w: string)
    requires Has(toks, w)
    ensures CountWord(toks, w) > 0
  {
    hide IsWord;
    var i :| 0 <= i < |toks| && IsWord(toks[i], w);
    if i > 0 {
      assert toks[1..][i - 1] == toks[i];
      HasCounts(toks[1..], w);
    }
  }

  /** The word reads as itself, however it is spelled. */
  lemma KeyReads(spell: string -> string, w: string)
    requires SpellsAll(spell) && w in ALL_KEYWORDS && AllCaps(w)
    ensures IsWord(Key(spell, w), w)
  {
    UpperSpells(spell(w), w);
  }

  /** A query with one of these words is refused. */
  lemma BlockedIsRefused(toks: seq<Token>, w: string)
    requires Has(toks, w)
    requires w == "JOIN" || w == "GROUP" || w == "UNION" || w == "INTERSECT" || w == "EXCEPT" || w == "DISTINCT" ||
             w == "HAVING" || w == "INTO" || w == "OVER" || w == "APPLY" || w == "PIVOT" || w == "UNPIVOT"
    ensures SourceTable(toks) == None
  {
    HasCounts(toks, w);
    assert w in BLOCKERS;
    hide CountWord;
    hide AroundFrom;
    hide FirstWord;
    hide Upper;
  }

  /** A query with a second SELECT is refused. */
  lemma SecondSelectIsRefused(spell: string -> string, q: Query)
    requires SpellsAll(spell) && (Has(PrintHeadOf(spell, q), "SELECT") || Has(PrintRestOf(spell, q), "SELECT"))
    ensures SourceTable(PrintQuery(spell, q)) == None
  {
    var (head, rest) := (PrintHeadOf(spell, q), PrintRestOf(spell, q));
    var (select, from) := (Key(spell, "SELECT"), Key(spell, "FROM"));
    ReservedCaps();
    KeyReads(spell, "SELECT");
    assert PrintQuery(spell, q) == [select] + head + [from] + rest;
    hide PrintQuery;
    hide PrintHeadOf;
    hide PrintRestOf;
    hide Spells;
    hide IsWord;
    CountOne(select, "SELECT");
    CountJoins([select] + head + [from], rest, "SELECT");
    CountJoins([select] + head, [from], "SELECT");
    CountJoins([select], head, "SELECT");
    if Has(head, "SELECT") { HasCounts(head, "SELECT"); }
    if Has(rest, "SELECT") { HasCounts(rest, "SELECT"); }
    hide CountWord;
    hide AroundFrom;
    hide FirstWord;
    hide Upper;
  }

  lemma HeadOrRest(spell: string -> string, q: Query, w: string)
    requires Has(PrintHeadOf(spell, q), w) || Has(PrintRestOf(spell, q), w)
    ensures Has(PrintQuery(spell, q), w)
  {
    var (head, rest) := (PrintHeadOf(spell, q), PrintRestOf(spell, q));
    var (select, from) := (Key(spell, "SELECT"), Key(spell, "FROM"));
    HasJoin([select], head, w);
    HasJoin([select] + head, [from], w);
    HasJoin([select] + head + [from], rest, w);
    hide Has;
    hide PrintHeadOf;
    hide PrintRestOf;
  }

  /** In one of the sections after the table or before FROM. */
  lemma InHead(spell: string -> string, q: Query, w: string)
    requires Has(PrintQuantifier(spell, q.quantifier), w) || Has(PrintEntries(spell, q.items), w) ||
             (q.into.Some? && IsWord(Key(spell, "INTO"), w))
    ensures Has(PrintHeadOf(spell, q), w)
  {
    var (a, b, c) := (PrintQuantifier(spell, q.quantifier), PrintTopOf(spell, q.top), PrintEntries(spell, q.items));
    var d := if q.into.Some? then [Key(spell, "INTO"), NameToken(q.into.value)] else [];
    if q.into.Some? && IsWord(Key(spell, "INTO"), w) { HasAt(d, 0, w); }
    assert PrintHeadOf(spell, q) == a + b + c + d;
    hide PrintHeadOf;
    hide PrintQuantifier;
    hide PrintTopOf;
    hide PrintEntries;
    HasJoin(a, b, w);
    HasJoin(a + b, c, w);
    HasJoin(a + b + c, d, w);
    hide Has;
  }

  lemma InRest(spell: string -> string, q: Query, w: string)
    requires Has(PrintTableRef(spell, q.table), w) || Has(PrintLinks(spell, q.links), w) ||
             Has(PrintClauses(spell, q.clauses), w) || Has(PrintCombined(spell, q.combined), w)
    ensures Has(PrintRestOf(spell, q), w)
  {
    var (a, b) := (PrintTableRef(spell, q.table), PrintLinks(spell, q.links));
    var (c, d) := (PrintClauses(spell, q.clauses), PrintCombined(spell, q.combined));
    assert PrintRestOf(spell, q) == a + b + c + d;
    hide PrintRestOf;
    hide PrintTableRef;
    hide PrintLinks;
    hide PrintClauses;
    hide PrintCombined;
    HasJoin(a, b, w);
    HasJoin(a + b, c, w);
    HasJoin(a + b + c, d, w);
    hide Has;
  }

  /** A window or a subquery among the parts. */
  lemma {:induction false} SpecialPartShows(spell: string -> string, ps: seq<Part>)
    requires SpellsAll(spell) && !PlainParts(ps)
    ensures Has(PrintParts(spell, ps), "OVER") || Has(PrintParts(spell, ps), "SELECT")
    decreases |ps|
  {
    var (first, rest) := (PrintPart(spell, ps[0]), PrintParts(spell, ps[1..]));
    if ps[0].Toks? {
      assert !PlainParts(ps[1..]);
      SpecialPartShows(spell, ps[1..]);
    } else {
      PartShows(spell, ps[0]);
    }
    assert PrintParts(spell, ps) == first + rest;
    hide PrintParts;
    hide PrintPart;
    HasJoin(first, rest, "OVER");
    HasJoin(first, rest, "SELECT");
    hide Has;
  }

  lemma PartShows(spell: string -> string, p: Part)
    requires SpellsAll(spell) && !p.Toks?
    ensures Has(PrintPart(spell, p), "OVER") || Has(PrintPart(spell, p), "SELECT")
  {
    ReservedCaps();
    match p
    case Window(frame) =>
      KeyReads(spell, "OVER");
      HasAt(PrintPart(spell, p), 0, "OVER");
    case Subquery(query) =>
      NestedShows(spell, query, []);
      assert PrintPart(spell, p) == [OPEN] + PrintQuery(spell, query) + [CLOSE] + [];
  }

  /** A query in parentheses brings its SELECT. */
  lemma NestedShows(spell: string -> string, query: Query, more: seq<Token>)
    requires SpellsAll(spell)
    ensures Has([OPEN] + PrintQuery(spell, query) + [CLOSE] + more, "SELECT")
  {
    ReservedCaps();
    KeyReads(spell, "SELECT");
    var toks := [OPEN] + PrintQuery(spell, query) + [CLOSE] + more;
    assert toks[1] == PrintQuery(spell, query)[0] == Key(spell, "SELECT") by {
      hide PrintHeadOf;
      hide PrintRestOf;
    }
    hide PrintQuery;
    hide IsWord;
    HasAt(toks, 1, "SELECT");
  }

  lemma {:induction false} SpecialEntryShows(spell: string -> string, es: seq<Entry>, i: nat)
    requires SpellsAll(spell) && i < |es| && es[i].Made? && !PlainParts(es[i].parts)
    ensures Has(PrintEntries(spell, es), "OVER") || Has(PrintEntries(spell, es), "SELECT")
    decreases |es|
  {
    var first := PrintEntry(spell, es[0]);
    var rest := if |es| == 1 then [] else [COMMA] + PrintEntries(spell, es[1..]);
    assert PrintEntries(spell, es) == first + rest;
    if i == 0 {
      SpecialPartShows(spell, es[0].parts);
    } else {
      SpecialEntryShows(spell, es[1..], i - 1);
      HasJoin([COMMA], PrintEntries(spell, es[1..]), "OVER");
      HasJoin([COMMA], PrintEntries(spell, es[1..]), "SELECT");
    }
    hide PrintEntries;
    hide Has;
    HasJoin(first, rest, "OVER");
    HasJoin(first, rest, "SELECT");
  }

  lemma ClauseShows(spell: string -> string, c: Clause)
    requires SpellsAll(spell) && !SimpleClause(c)
    ensures var toks := PrintClause(spell, c); Has(toks, "GROUP") || Has(toks, "HAVING") || Has(toks, "OVER") || Has(toks, "SELECT")
  {
    var (word, parts) := (Key(spell, SectionWord(c.section)), PrintParts(spell, c.parts));
    ReservedCaps();
    if c.section == GroupBy {
      KeyReads(spell, "GROUP");
      HasAt(PrintClause(spell, c), 0, "GROUP");
    } else if c.section == Having {
      KeyReads(spell, "HAVING");
      HasAt(PrintClause(spell, c), 0, "HAVING");
    } else {
      SpecialPartShows(spell, c.parts);
      HasJoin([word], parts, "OVER");
      HasJoin([word], parts, "SELECT");
    }
  }

  lemma {:induction false} SpecialClauseShows(spell: string -> string, cs: seq<Clause>, i: nat)
    requires SpellsAll(spell) && i < |cs| && !SimpleClause(cs[i])
    ensures var toks := PrintClauses(spell, cs);
            Has(toks, "GROUP") || Has(toks, "HAVING") || Has(toks, "OVER") || Has(toks, "SELECT")
    decreases |cs|
  {
    var (first, rest) := (PrintClause(spell, cs[0]), PrintClauses(spell, cs[1..]));
    assert PrintClauses(spell, cs) == first + rest;
    if i == 0 {
      ClauseShows(spell, cs[0]);
    } else {
      SpecialClauseShows(spell, cs[1..], i - 1);
    }
    hide PrintClauses;
    hide PrintClause;
    hide SimpleClause;
    HasJoin(first, rest, "GROUP");
    HasJoin(first, rest, "HAVING");
    HasJoin(first, rest, "OVER");
    HasJoin(first, rest, "SELECT");
    hide Has;
  }

  lemma LinkShows(spell: string -> string, l: Link)
    requires SpellsAll(spell) && !l.Comma?
    ensures var toks := PrintLink(spell, l); Has(toks, "JOIN") || Has(toks, "APPLY") || Has(toks, "PIVOT") || Has(toks, "UNPIVOT")
  {
    ReservedCaps();
    match l
    case Join(how, table, on) =>
      KeyReads(spell, "JOIN");
      var (a, b) := (PrintTableRef(spell, table), PrintParts(spell, on));
      assert PrintLink(spell, l)[|how|] == Key(spell, "JOIN");
      HasAt(PrintLink(spell, l), |how|, "JOIN");
    case Apply(how, table) =>
      KeyReads(spell, "APPLY");
      assert PrintLink(spell, l)[|how|] == Key(spell, "APPLY");
      HasAt(PrintLink(spell, l), |how|, "APPLY");
    case Pivot(back, spec) =>
      KeyReads(spell, "PIVOT");
      KeyReads(spell, "UNPIVOT");
      HasAt(PrintLink(spell, l), 0, if back then "UNPIVOT" else "PIVOT");
  }

  lemma FirstLinkShows(spell: string -> string, ls: seq<Link>)
    requires SpellsAll(spell) && ls != [] && !ls[0].Comma?
    ensures var toks := PrintLinks(spell, ls); Has(toks, "JOIN") || Has(toks, "APPLY") || Has(toks, "PIVOT") || Has(toks, "UNPIVOT")
  {
    LinkShows(spell, ls[0]);
    var (first, rest) := (PrintLink(spell, ls[0]), PrintLinks(spell, ls[1..]));
    hide PrintLink;
    HasJoin(first, rest, "JOIN");
    HasJoin(first, rest, "APPLY");
    HasJoin(first, rest, "PIVOT");
    HasJoin(first, rest, "UNPIVOT");
    hide Has;
  }

  lemma CombinedShows(spell: string -> string, c: Combined)
    requires SpellsAll(spell) && c != Alone
    ensures var toks := PrintCombined(spell, c); Has(toks, "UNION") || Has(toks, "INTERSECT") || Has(toks, "EXCEPT")
  {
    ReservedCaps();
    KeyReads(spell, "UNION");
    KeyReads(spell, "INTERSECT");
    KeyReads(spell, "EXCEPT");
    hide PrintQuery;
    HasAt(PrintCombined(spell, c), 0, if c.Union? then "UNION" else if c.Intersect? then "INTERSECT" else "EXCEPT");
  }

  /** A name that is not one of the words with a meaning of their own there. */
  ghost predicate FreeName(n: Name) {
    NameOk(n) && NameToken(n).text != "." && !Ending(NameToken(n)) && !Reserved(NameToken(n))
  }

  ghost predicate AliasOk(a: Alias) {
    a.Alias? ==> FreeName(a.name)
  }

  ghost predicate PartsFree(parts: seq<Name>) {
    parts != [] && forall i :: 0 <= i < |parts| ==> FreeName(parts[i])
  }

  lemma {:induction false} OneTableFails(toks: seq<Token>, i: nat, k: nat)
    requires i <= k < |toks| && toks[k].text == "," && forall j :: i <= j < k ==> !Ending(toks[j])
    ensures !OneTable(toks, i)
    decreases k - i
  {
    if i < k {
      EndingMeans(toks[i]);
      OneTableFails(toks, i + 1, k);
    }
  }

  lemma {:induction false} FirstWordIsOnly(toks: seq<Token>, i: nat, w: string)
    requires i < |toks| && IsWord(toks[i], w) && CountWord(toks, w) == 1
    ensures FirstWord(toks, w) == i
  {
    hide IsWord;
    if IsWord(toks[0], w) {
      if i > 0 {
        assert toks[1..][i - 1] == toks[i];
        HasAt(toks[1..], i - 1, w);
        HasCounts(toks[1..], w);
      }
    } else {
      assert toks[1..][i - 1] == toks[i];
      FirstWordIsOnly(toks[1..], i - 1, w);
    }
  }

  ghost predicate NoneEnds(toks: seq<Token>) {
    forall i :: 0 <= i < |toks| ==> !Ending(toks[i])
  }

  lemma NoneEndJoin(a: seq<Token>, b: seq<Token>)
    requires NoneEnds(a) && NoneEnds(b)
    ensures NoneEnds(a + b)
  {
    hide Ending;
  }

  lemma {:induction false} PathNeverEnds(quals: seq<Name>, last: Name)
    requires FreeName(last) && forall i :: 0 <= i < |quals| ==> FreeName(quals[i])
    ensures NoneEnds(Dotted(quals, NameToken(last)))
  {
    if quals != [] {
      PathNeverEnds(quals[1..], last);
      assert FreeName(quals[0]);
      assert NoneEnds([NameToken(quals[0]), DOT]);
      NoneEndJoin([NameToken(quals[0]), DOT], Dotted(quals[1..], NameToken(last)));
    }
  }

  lemma AliasNeverEnds(spell: string -> string, a: Alias)
    requires SpellsAll(spell) && AliasOk(a)
    ensures NoneEnds(PrintAlias(spell, a)) && forall i :: 0 <= i < |PrintAlias(spell, a)| ==> PrintAlias(spell, a)[i].text != "."
  {
    if a.Alias? {
      OtherCaps();
      KeyReads(spell, "AS");
      EndingMeans(Key(spell, "AS"));
      assert |spell("AS")| == 2;
      hide Upper;
    }
  }

  /** Where the comma after the first table stands. */
  lemma CommaStands(spell: string -> string, q: Query) returns (pre: seq<Token>, table: seq<Token>, more: seq<Token>)
    requires SpellsAll(spell) && q.table.Named? && PartsFree(q.table.parts) && AliasOk(q.table.alias)
    requires q.links != [] && q.links[0].Comma?
    ensures PrintQuery(spell, q) == pre + (table + ([COMMA] + more))
    ensures |pre| == |PrintHeadOf(spell, q)| + 2 && IsWord(pre[|pre| - 1], "FROM")
    ensures NoneEnds(table) && |table| >= 1 && (|table| > 1 && table[1].text == "." ==> |table| >= 3)
  {
    var head := PrintHeadOf(spell, q);
    var (parts, alias) := (q.table.parts, PrintAlias(spell, q.table.alias));
    pre := [Key(spell, "SELECT")] + head + [Key(spell, "FROM")];
    table := PrintTable(parts) + alias;
    var linked := PrintTableRef(spell, q.links[0].table);
    var (links, clauses, combined) := (PrintLinks(spell, q.links[1..]), PrintClauses(spell, q.clauses), PrintCombined(spell, q.combined));
    more := linked + links + clauses + combined;
    assert PrintLinks(spell, q.links) == [COMMA] + linked + links;
    assert PrintRestOf(spell, q) == table + ([COMMA] + linked + links) + clauses + combined;
    TableNeverEnds(spell, parts, q.table.alias);
    ReservedCaps();
    KeyReads(spell, "FROM");
    assert PrintQuery(spell, q) == pre + PrintRestOf(spell, q);
    hide *;
    Rejoin(table, [COMMA], linked, links, clauses, combined);
  }

  lemma TableNeverEnds(spell: string -> string, parts: seq<Name>, alias: Alias)
    requires SpellsAll(spell) && PartsFree(parts) && AliasOk(alias)
    ensures var table := PrintTable(parts) + PrintAlias(spell, alias);
            NoneEnds(table) && |table| >= 1 && (|table| > 1 && table[1].text == "." ==> |table| >= 3)
  {
    var more := PrintAlias(spell, alias);
    var table := PrintTable(parts) + more;
    TableStart(parts);
    PathNeverEnds(parts[..|parts| - 1], parts[|parts| - 1]);
    AliasNeverEnds(spell, alias);
    NoneEndJoin(PrintTable(parts), more);
    assert |table| > 1 ==> table[1] == if |parts| > 1 then PrintTable(parts)[1] else more[0];
  }

  lemma Rejoin(a: seq<Token>, b: seq<Token>, c: seq<Token>, d: seq<Token>, e: seq<Token>, f: seq<Token>)
    ensures a + (b + c + d) + e + f == a + (b + (c + d + e + f))
  {
  }

  /** A comma after the first table means a second one. */
  lemma SecondTableIsRefused(spell: string -> string, q: Query)
    requires SpellsAll(spell) && q.table.Named? && PartsFree(q.table.parts) && AliasOk(q.table.alias)
    requires q.links != [] && q.links[0].Comma?
    ensures SourceTable(PrintQuery(spell, q)) == None
  {
    var pre, table, more := CommaStands(spell, q);
    var toks := PrintQuery(spell, q);
    hide *;
    if !Refused(toks) {
      CommaIsFound(toks, pre, table, more);
    }
    RefusedIsNone(toks);
  }

  lemma RefusedIsNone(toks: seq<Token>)
    requires Refused(toks) || (var from := FirstWord(toks, "FROM"); from >= |toks| || from == 0 || AroundFrom(toks, from) == None)
    ensures SourceTable(toks) == None
  {
    hide Refused;
    hide AroundFrom;
    hide FirstWord;
  }

  lemma CommaIsFound(toks: seq<Token>, pre: seq<Token>, table: seq<Token>, more: seq<Token>)
    requires !Refused(toks) && toks == pre + (table + ([COMMA] + more)) && |pre| >= 2 && IsWord(pre[|pre| - 1], "FROM")
    requires NoneEnds(table) && |table| >= 1 && (|table| > 1 && table[1].text == "." ==> |table| >= 3)
    ensures FirstWord(toks, "FROM") == |pre| - 1 < |toks| && AroundFrom(toks, |pre| - 1) == None
  {
    var (from, k) := (|pre| - 1, |pre| + |table|);
    CommaText();
    hide *;
    TokensAre(toks, pre, table, more);
    assert toks[from + 2] == if |table| > 1 then table[1] else COMMA;
    NoneEndsAt(toks, |pre|, table);
    CommaFails(toks, from, k);
  }

  lemma TokensAre(toks: seq<Token>, pre: seq<Token>, table: seq<Token>, more: seq<Token>)
    requires toks == pre + (table + ([COMMA] + more)) && |pre| >= 2 && |table| >= 1
    ensures |toks| > |pre| + |table| && toks[|pre| - 1] == pre[|pre| - 1] && toks[|pre| + |table|] == COMMA
    ensures toks[|pre|..|pre| + |table|] == table
    ensures toks[|pre| + 1] == if |table| > 1 then table[1] else COMMA
  {
  }

  lemma NoneEndsAt(toks: seq<Token>, from: nat, table: seq<Token>)
    requires from + |table| <= |toks| && toks[from..from + |table|] == table && NoneEnds(table)
    ensures forall j :: from <= j < from + |table| ==> !Ending(toks[j])
  {
    hide Ending;
    forall j | from <= j < from + |table| ensures !Ending(toks[j]) {
      assert toks[j] == table[j - from];
    }
  }

  /** A comma behind the name after FROM, with no clause before it. */
  lemma CommaFails(toks: seq<Token>, from: nat, k: nat)
    requires !Refused(toks) && 0 < from && from + 2 <= k < |toks| && IsWord(toks[from], "FROM") && toks[k] == COMMA
    requires forall j :: from < j < k ==> !Ending(toks[j])
    requires toks[from + 2].text == "." ==> from + 4 <= k
    ensures FirstWord(toks, "FROM") == from && AroundFrom(toks, from) == None
  {
    assert CountWord(toks, "FROM") == 1 && toks[k].text == ",";
    hide *;
    FirstWordIsOnly(toks, from, "FROM");
    OneTableFails(toks, if toks[from + 2].text == "." then from + 4 else from + 2, k);
    NotOneTable(toks, from);
  }

  lemma NotOneTable(toks: seq<Token>, from: nat)
    requires 0 < from && from + 2 < |toks|
    requires !OneTable(toks, if toks[from + 2].text == "." then from + 4 else from + 2)
    ensures AroundFrom(toks, from) == None
  {
    hide OneTable;
  }

  lemma CommaText()
    ensures COMMA.text != "."
  {
    assert COMMA.text[0] == ',';
  }

  /** The table has a name, and an entry not written as an item has a window
      or a subquery in it. */
  ghost predicate ShapeOk(q: Query) {
    (q.table.Named? ==> PartsFree(q.table.parts) && AliasOk(q.table.alias)) &&
    forall i :: 0 <= i < |q.items| && q.items[i].Made? ==> !PlainParts(q.items[i].parts)
  }

  lemma ShownIsRefused(spell: string -> string, q: Query, w: string)
    requires Has(PrintHeadOf(spell, q), w) || Has(PrintRestOf(spell, q), w)
    requires w == "JOIN" || w == "GROUP" || w == "UNION" || w == "INTERSECT" || w == "EXCEPT" || w == "DISTINCT" ||
             w == "HAVING" || w == "INTO" || w == "OVER" || w == "APPLY" || w == "PIVOT" || w == "UNPIVOT"
    ensures SourceTable(PrintQuery(spell, q)) == None
  {
    HeadOrRest(spell, q, w);
    hide Has;
    hide PrintQuery;
    hide SourceTable;
    BlockedIsRefused(PrintQuery(spell, q), w);
  }

  lemma SpecialHeadIsRefused(spell: string -> string, q: Query, i: nat)
    requires SpellsAll(spell) && i < |q.items| && q.items[i].Made? && !PlainParts(q.items[i].parts)
    ensures SourceTable(PrintQuery(spell, q)) == None
  {
    hide *;
    SpecialEntryShows(spell, q.items, i);
    if Has(PrintEntries(spell, q.items), "OVER") {
      InHead(spell, q, "OVER");
      ShownIsRefused(spell, q, "OVER");
    } else {
      InHead(spell, q, "SELECT");
      SecondSelectIsRefused(spell, q);
    }
  }

  lemma DistinctOrIntoIsRefused(spell: string -> string, q: Query)
    requires SpellsAll(spell) && (q.quantifier == DistinctRows || q.into.Some?)
    ensures SourceTable(PrintQuery(spell, q)) == None
  {
    ReservedCaps();
    KeyReads(spell, "DISTINCT");
    KeyReads(spell, "INTO");
    if q.quantifier == DistinctRows {
      HasAt(PrintQuantifier(spell, q.quantifier), 0, "DISTINCT");
      hide *;
      InHead(spell, q, "DISTINCT");
      ShownIsRefused(spell, q, "DISTINCT");
    } else {
      hide *;
      InHead(spell, q, "INTO");
      ShownIsRefused(spell, q, "INTO");
    }
  }

  lemma DerivedIsRefused(spell: string -> string, q: Query)
    requires SpellsAll(spell) && q.table.Derived?
    ensures SourceTable(PrintQuery(spell, q)) == None
  {
    NestedShows(spell, q.table.query, PrintAlias(spell, q.table.alias));
    assert PrintTableRef(spell, q.table) ==
           [OPEN] + PrintQuery(spell, q.table.query) + [CLOSE] + PrintAlias(spell, q.table.alias);
    hide *;
    InRest(spell, q, "SELECT");
    SecondSelectIsRefused(spell, q);
  }

  lemma SpecialClauseIsRefused(spell: string -> string, q: Query, i: nat)
    requires SpellsAll(spell) && i < |q.clauses| && !SimpleClause(q.clauses[i])
    ensures SourceTable(PrintQuery(spell, q)) == None
  {
    hide *;
    SpecialClauseShows(spell, q.clauses, i);
    if Has(PrintClauses(spell, q.clauses), "SELECT") {
      InRest(spell, q, "SELECT");
      SecondSelectIsRefused(spell, q);
    } else {
      var w := if Has(PrintClauses(spell, q.clauses), "GROUP") then "GROUP"
               else if Has(PrintClauses(spell, q.clauses), "HAVING") then "HAVING" else "OVER";
      InRest(spell, q, w);
      ShownIsRefused(spell, q, w);
    }
  }

  lemma LinkIsRefused(spell: string -> string, q: Query)
    requires SpellsAll(spell) && q.links != [] && !q.links[0].Comma?
    ensures SourceTable(PrintQuery(spell, q)) == None
  {
    hide *;
    FirstLinkShows(spell, q.links);
    var toks := PrintLinks(spell, q.links);
    var w := if Has(toks, "JOIN") then "JOIN" else if Has(toks, "APPLY") then "APPLY"
             else if Has(toks, "PIVOT") then "PIVOT" else "UNPIVOT";
    InRest(spell, q, w);
    ShownIsRefused(spell, q, w);
  }

  lemma CombinedIsRefused(spell: string -> string, q: Query)
    requires SpellsAll(spell) && q.combined != Alone
    ensures SourceTable(PrintQuery(spell, q)) == None
  {
    hide *;
    CombinedShows(spell, q.combined);
    var toks := PrintCombined(spell, q.combined);
    var w := if Has(toks, "UNION") then "UNION" else if Has(toks, "INTERSECT") then "INTERSECT" else "EXCEPT";
    InRest(spell, q, w);
    ShownIsRefused(spell, q, w);
  }

  /** A query with a join of any kind, a second table, DISTINCT, GROUP BY,
      HAVING, INTO, a window, a subquery or a set operation cannot be edited,
      whatever else is in it. */
  lemma ComplicatedIsRefused(spell: string -> string, q: Query)
    requires SpellsAll(spell) && ShapeOk(q) && !Simple(q)
    ensures SourceTable(PrintQuery(spell, q)) == None
  {
    hide PrintQuery;
    hide SourceTable;
    hide PlainParts;
    hide SimpleClause;
    hide FreeName;
    if q.quantifier == DistinctRows || q.into.Some? {
      DistinctOrIntoIsRefused(spell, q);
    } else if q.table.Derived? {
      DerivedIsRefused(spell, q);
    } else if q.links != [] {
      if q.links[0].Comma? { SecondTableIsRefused(spell, q); } else { LinkIsRefused(spell, q); }
    } else if q.combined != Alone {
      CombinedIsRefused(spell, q);
    } else if i :| 0 <= i < |q.items| && !q.items[i].Whole? {
      SpecialHeadIsRefused(spell, q, i);
    } else {
      var i :| 0 <= i < |q.clauses| && !SimpleClause(q.clauses[i]);
      SpecialClauseIsRefused(spell, q, i);
    }
  }

  ghost predicate NoneReserved(toks: seq<Token>) {
    forall i :: 0 <= i < |toks| ==> !Reserved(toks[i])
  }

  /** The tokens given as they are, in items, TOP and clauses, are no words
      that would make it another query. */
  ghost predicate TokensOk(spell: string -> string, q: Query) {
    (forall i :: 0 <= i < |q.items| && q.items[i].Whole? ==>
       ItemOk(q.items[i].item) && NoneReserved(PrintItem(q.items[i].item))) &&
    TopOk(q.top) && (q.top.TopNumber? ==> !Reserved(q.top.n)) && (q.top.TopGroup? ==> NoneReserved(q.top.inner)) &&
    PlainStart(q.quantifier == AllRows, q.top, PrintEntries(spell, q.items)) &&
    forall i :: 0 <= i < |q.clauses| ==> ClauseOk(q.clauses[i])
  }

  ghost predicate ClauseOk(c: Clause) {
    forall i :: 0 <= i < |c.parts| && c.parts[i].Toks? ==> NoneReserved(c.parts[i].toks)
  }

  ghost predicate QueryOk(spell: string -> string, q: Query) {
    SpellsAll(spell) && ShapeOk(q) && q.items != [] && TokensOk(spell, q)
  }

  function ItemsOf(es: seq<Entry>): seq<Item>
    requires forall i :: 0 <= i < |es| ==> es[i].Whole?
  {
    seq(|es|, i requires 0 <= i < |es| => es[i].item)
  }

  /** A simple query as a simple SELECT. */
  function AsSelect(spell: string -> string, q: Query): Select
    requires Simple(q)
  {
    Select(spell, q.quantifier == AllRows, q.top, ItemsOf(q.items), q.table.parts,
           PrintAlias(spell, q.table.alias) + PrintClauses(spell, q.clauses))
  }

  lemma {:induction false} SameItems(spell: string -> string, es: seq<Entry>)
    requires forall i :: 0 <= i < |es| ==> es[i].Whole?
    ensures PrintItems(ItemsOf(es)) == PrintEntries(spell, es)
    decreases |es|
  {
    if es != [] {
      var (first, rest) := (PrintItem(es[0].item), PrintEntries(spell, es[1..]));
      assert ItemsOf(es)[1..] == ItemsOf(es[1..]) && ItemsOf(es)[0] == es[0].item;
      SameItems(spell, es[1..]);
      hide PrintItem;
      if |es| > 1 {
        assert first + [COMMA] + rest == first + ([COMMA] + rest);
      } else {
        assert first + [] == first;
      }
    }
  }

  lemma SamePrint(spell: string -> string, q: Query)
    requires Simple(q) && q.table.parts != []
    ensures Print(AsSelect(spell, q)) == PrintQuery(spell, q)
    ensures PrintHead(AsSelect(spell, q)) == PrintHeadOf(spell, q)
    ensures PrintItems(AsSelect(spell, q).items) == PrintEntries(spell, q.items)
  {
    var sel := AsSelect(spell, q);
    SameItems(spell, q.items);
    var (a, b, c) := (PrintQuantifier(spell, q.quantifier), PrintTopOf(spell, q.top), PrintEntries(spell, q.items));
    assert PrintTop(sel) == b;
    assert PrintPrefix(sel) == a + b;
    assert PrintHeadOf(spell, q) == a + b + c + [];
    assert a + b + c + [] == a + b + c;
    assert PrintHead(sel) == a + b + c;
    var (table, alias, clauses) := (PrintTable(q.table.parts), PrintAlias(spell, q.table.alias), PrintClauses(spell, q.clauses));
    assert PrintRestOf(spell, q) == (table + alias) + [] + clauses + [];
    assert (table + alias) + [] + clauses + [] == table + (alias + clauses);
  }

  lemma NoneReservedJoin(a: seq<Token>, b: seq<Token>)
    requires NoneReserved(a) && NoneReserved(b)
    ensures NoneReserved(a + b)
  {
    hide Reserved;
  }

  lemma NoneReservedIsFree(toks: seq<Token>)
    requires NoneReserved(toks)
    ensures Free(toks)
  {
    hide Reserved;
    hide Upper;
    forall i | 0 <= i < |toks| && toks[i].kind == Word ensures Upper(toks[i].text) !in BANNED {
      ReservedMeans(toks[i]);
    }
  }

  /** A word that may stand anywhere. */
  lemma PlainKey(spell: string -> string, w: string)
    requires SpellsAll(spell)
    requires w == "ALL" || w == "TOP" || w == "PERCENT" || w == "WITH" || w == "TIES" || w == "AS"
    ensures !Reserved(Key(spell, w)) && Upper(spell(w)) == w && |spell(w)| > 1
  {
    OtherCaps();
    UpperSpells(spell(w), w);
    ReservedMeans(Key(spell, w));
    NotBanned(w);
    hide Reserved;
  }

  /** A word that begins what follows the tables. */
  lemma EndingKey(spell: string -> string, w: string)
    requires SpellsAll(spell) && (w == "WHERE" || w == "ORDER" || w == "LIMIT" || w == "OFFSET" || w == "FETCH")
    ensures !Reserved(Key(spell, w)) && Ending(Key(spell, w)) && |spell(w)| > 1
  {
    EndingCaps();
    UpperSpells(spell(w), w);
    ReservedMeans(Key(spell, w));
    EndingMeans(Key(spell, w));
    NotBanned(w);
    hide Reserved;
    hide Ending;
  }

  lemma NotBanned(w: string)
    requires w == "ALL" || w == "TOP" || w == "PERCENT" || w == "WITH" || w == "TIES" || w == "AS" ||
             w == "WHERE" || w == "ORDER" || w == "LIMIT" || w == "OFFSET" || w == "FETCH"
    ensures w !in BANNED && |w| >= 2
    ensures w == "WHERE" || w == "ORDER" || w == "LIMIT" || w == "OFFSET" || w == "FETCH" ==> w in TAIL_WORDS && |w| >= 5
  {
  }

  lemma ParensArePlain()
    ensures !Reserved(OPEN) && !Reserved(CLOSE) && !Reserved(COMMA) && !Reserved(DOT)
  {
  }

  lemma TopWordsArePlain(spell: string -> string, percent: bool, ties: bool)
    requires SpellsAll(spell)
    ensures NoneReserved(TopWords(spell, percent, ties))
  {
    PlainKey(spell, "PERCENT");
    PlainKey(spell, "WITH");
    PlainKey(spell, "TIES");
    hide Reserved;
    hide Upper;
  }

  lemma TopIsPlain(spell: string -> string, top: Top)
    requires SpellsAll(spell) && (top.TopNumber? ==> !Reserved(top.n)) && (top.TopGroup? ==> NoneReserved(top.inner))
    ensures NoneReserved(PrintTopOf(spell, top))
  {
    hide Reserved;
    hide Upper;
    hide TopWords;
    if !top.NoTop? {
      var words := TopWords(spell, top.percent, top.ties);
      PlainKey(spell, "TOP");
      ParensArePlain();
      TopWordsArePlain(spell, top.percent, top.ties);
      if top.TopNumber? {
        NoneReservedJoin([Key(spell, "TOP"), top.n], words);
      } else {
        NoneReservedJoin([Key(spell, "TOP"), OPEN], top.inner);
        NoneReservedJoin([Key(spell, "TOP"), OPEN] + top.inner, [CLOSE]);
        NoneReservedJoin([Key(spell, "TOP"), OPEN] + top.inner + [CLOSE], words);
      }
    }
  }

  lemma {:induction false} EntriesArePlain(spell: string -> string, es: seq<Entry>)
    requires forall i :: 0 <= i < |es| ==> es[i].Whole? && NoneReserved(PrintItem(es[i].item))
    ensures NoneReserved(PrintEntries(spell, es))
    decreases |es|
  {
    if es != [] {
      EntriesArePlain(spell, es[1..]);
      assert !Reserved(COMMA);
      hide Reserved;
      hide PrintItem;
      var rest := if |es| == 1 then [] else [COMMA] + PrintEntries(spell, es[1..]);
      assert PrintEntries(spell, es) == PrintItem(es[0].item) + rest;
      NoneReservedJoin([COMMA], PrintEntries(spell, es[1..]));
      NoneReservedJoin(PrintItem(es[0].item), rest);
    }
  }

  lemma HeadIsPlain(spell: string -> string, q: Query)
    requires QueryOk(spell, q) && Simple(q)
    ensures NoneReserved(PrintHeadOf(spell, q))
  {
    var (a, b, c) := (PrintQuantifier(spell, q.quantifier), PrintTopOf(spell, q.top), PrintEntries(spell, q.items));
    assert PrintHeadOf(spell, q) == a + b + c + [];
    assert (q.top.TopNumber? ==> !Reserved(q.top.n)) && (q.top.TopGroup? ==> NoneReserved(q.top.inner)) && SpellsAll(spell);
    assert q.quantifier == AllRows ==> a == [Key(spell, "ALL")];
    assert q.quantifier == NoQuantifier ==> a == [];
    assert q.quantifier != DistinctRows;
    assert forall i :: 0 <= i < |q.items| ==> q.items[i].Whole? && NoneReserved(PrintItem(q.items[i].item));
    hide *;
    EntriesArePlain(spell, q.items);
    TopIsPlain(spell, q.top);
    PlainKey(spell, "ALL");
    OneIsPlain(Key(spell, "ALL"));
    NoneReservedJoin(a, b);
    NoneReservedJoin(a + b, c);
    assert a + b + c + [] == a + b + c;
  }

  lemma OneIsPlain(t: Token)
    requires !Reserved(t)
    ensures NoneReserved([t]) && NoneReserved([])
  {
  }

  lemma {:induction false} PathIsPlain(quals: seq<Name>, last: Name)
    requires FreeName(last) && forall i :: 0 <= i < |quals| ==> FreeName(quals[i])
    ensures NoneReserved(Dotted(quals, NameToken(last)))
  {
    if quals != [] {
      PathIsPlain(quals[1..], last);
      assert FreeName(quals[0]);
      assert NoneReserved([NameToken(quals[0]), DOT]);
      NoneReservedJoin([NameToken(quals[0]), DOT], Dotted(quals[1..], NameToken(last)));
    }
  }

  lemma {:induction false} PlainPartsArePlain(spell: string -> string, ps: seq<Part>)
    requires PlainParts(ps) && forall i :: 0 <= i < |ps| ==> NoneReserved(ps[i].toks)
    ensures NoneReserved(PrintParts(spell, ps))
    decreases |ps|
  {
    if ps != [] {
      PlainPartsArePlain(spell, ps[1..]);
      hide Reserved;
      NoneReservedJoin(ps[0].toks, PrintParts(spell, ps[1..]));
    }
  }

  lemma {:induction false} ClausesArePlain(spell: string -> string, cs: seq<Clause>)
    requires SpellsAll(spell) && forall i :: 0 <= i < |cs| ==> SimpleClause(cs[i]) && ClauseOk(cs[i])
    ensures NoneReserved(PrintClauses(spell, cs))
    ensures cs != [] ==> PrintClauses(spell, cs) != [] && Ending(PrintClauses(spell, cs)[0]) && |PrintClauses(spell, cs)[0].text| > 1
    decreases |cs|
  {
    if cs != [] {
      EndingKey(spell, SectionWord(cs[0].section));
      ClausesArePlain(spell, cs[1..]);
      var (key, parts) := (Key(spell, SectionWord(cs[0].section)), PrintParts(spell, cs[0].parts));
      PlainPartsArePlain(spell, cs[0].parts);
      hide Reserved;
      hide Ending;
      hide SpellsAll;
      hide Upper;
      NoneReservedJoin([key], parts);
      NoneReservedJoin([key] + parts, PrintClauses(spell, cs[1..]));
      assert PrintClauses(spell, cs) == [key] + parts + PrintClauses(spell, cs[1..]);
    }
  }

  lemma AliasIsPlain(spell: string -> string, a: Alias)
    requires SpellsAll(spell) && AliasOk(a)
    ensures NoneReserved(PrintAlias(spell, a))
    ensures forall i :: 0 <= i < |PrintAlias(spell, a)| ==> PrintAlias(spell, a)[i].text != "," && PrintAlias(spell, a)[i].text != "."
  {
    hide Reserved;
    hide Ending;
    hide Upper;
    if a.Alias? {
      PlainKey(spell, "AS");
      NameIsNoComma(a.name);
    }
  }

  /** What follows the table begins no other table. */
  lemma {:induction false} AliasThenClause(alias: seq<Token>, clauses: seq<Token>, i: nat)
    requires i <= |alias| && (forall k :: 0 <= k < |alias| ==> alias[k].text != ",")
    requires clauses != [] ==> Ending(clauses[0]) && |clauses[0].text| > 1
    ensures OneTable(alias + clauses, i)
    decreases |alias| - i
  {
    if i < |alias| {
      AliasThenClause(alias, clauses, i + 1);
    } else if clauses != [] {
      assert (alias + clauses)[i] == clauses[0];
      EndingMeans(clauses[0]);
    }
  }

  lemma SelectIsOk(spell: string -> string, q: Query)
    requires QueryOk(spell, q) && Simple(q)
    ensures q.table.parts != [] && SelectOk(AsSelect(spell, q))
  {
    var sel := AsSelect(spell, q);
    var parts := q.table.parts;
    PartsAreOk(spell, q);
    assert sel.items == ItemsOf(q.items) && sel.parts == parts && sel.top == q.top && sel.spell == spell;
    assert sel.all == (q.quantifier == AllRows) && SpellsAll(spell);
    hide *;
    WordsAreSpelled(sel);
    TailIsOk(spell, q);
    HeadIsPlain(spell, q);
    SamePrint(spell, q);
    NoneReservedIsFree(PrintHeadOf(spell, q));
    SelectOkIs(sel);
  }

  lemma PartsAreOk(spell: string -> string, q: Query)
    requires QueryOk(spell, q) && Simple(q)
    ensures q.table.parts != [] && (forall i :: 0 <= i < |q.table.parts| ==> NameOk(q.table.parts[i]))
    ensures TopOk(q.top) && ItemsOk(ItemsOf(q.items))
    ensures PlainStart(q.quantifier == AllRows, q.top, PrintEntries(spell, q.items))
  {
    hide ItemOk;
    hide NoneReserved;
    hide NameOk;
    hide Reserved;
    hide Ending;
    hide PlainStart;
    hide TopOk;
    hide PrintEntries;
    hide SpellsAll;
    hide ClauseOk;
    forall i | 0 <= i < |q.table.parts| ensures NameOk(q.table.parts[i]) {
      assert FreeName(q.table.parts[i]);
    }
  }

  lemma WordsAreSpelled(sel: Select)
    requires SpellsAll(sel.spell)
    ensures SpellsWords(sel)
  {
    ReservedCaps();
    OtherCaps();
    forall w | w in KEYWORDS ensures Upper(sel.spell(w)) == w {
      UpperSpells(sel.spell(w), w);
    }
  }

  lemma TailIsOk(spell: string -> string, q: Query)
    requires QueryOk(spell, q) && Simple(q) && q.table.parts != []
    ensures var tail := AsSelect(spell, q).tail;
            Free(PrintTable(q.table.parts) + tail) && (tail != [] ==> tail[0].text != ".") && OneTable(tail, 0)
  {
    var (parts, alias, clauses) := (q.table.parts, PrintAlias(spell, q.table.alias), PrintClauses(spell, q.clauses));
    assert PartsFree(parts) && AliasOk(q.table.alias) && SpellsAll(spell);
    assert forall i :: 0 <= i < |q.clauses| ==> SimpleClause(q.clauses[i]) && ClauseOk(q.clauses[i]);
    assert forall i :: 0 <= i < |parts| ==> FreeName(parts[i]);
    assert q.clauses == [] ==> clauses == [];
    var tail := AsSelect(spell, q).tail;
    assert tail == alias + clauses;
    hide *;
    PathIsPlain(parts[..|parts| - 1], parts[|parts| - 1]);
    AliasIsPlain(spell, q.table.alias);
    ClausesArePlain(spell, q.clauses);
    AliasThenClause(alias, clauses, 0);
    NoneReservedJoin(alias, clauses);
    PathIs(parts);
    NoneReservedJoin(PrintTable(parts), tail);
    NoneReservedIsFree(PrintTable(parts) + tail);
    assert tail != [] ==> tail[0] == if alias != [] then alias[0] else clauses[0];
  }

  lemma PathIs(parts: seq<Name>)
    requires parts != []
    ensures PrintTable(parts) == Dotted(parts[..|parts| - 1], NameToken(parts[|parts| - 1]))
  {
  }

  lemma SelectOkIs(sel: Select)
    requires SpellsWords(sel) && TopOk(sel.top) && ItemsOk(sel.items) && PlainStart(sel.all, sel.top, PrintItems(sel.items))
    requires sel.parts != [] && (forall i :: 0 <= i < |sel.parts| ==> NameOk(sel.parts[i]))
    requires Free(PrintHead(sel)) && Free(PrintTable(sel.parts) + sel.tail)
    requires (sel.tail != [] ==> sel.tail[0].text != ".") && OneTable(sel.tail, 0)
    ensures SelectOk(sel)
  {
    hide SpellsWords;
    hide TopOk;
    hide ItemsOk;
    hide PlainStart;
    hide NameOk;
    hide Free;
    hide OneTable;
  }

  /** Exactly the simple queries can be edited; and then the first parts of
      the table's name and the select list are read as they are written. */
  lemma EditableQueryIff(spell: string -> string, q: Query)
    requires QueryOk(spell, q)
    ensures SourceTable(PrintQuery(spell, q)).Some? <==> Simple(q)
    ensures Simple(q) && q.table.parts != [] ==>
              SourceTable(PrintQuery(spell, q)) ==
              Some(Source(ReadTable(q.table.parts).0, ReadTable(q.table.parts).1, Meanings(ItemsOf(q.items))))
  {
    assert SpellsAll(spell) && ShapeOk(q);
    if Simple(q) {
      SelectIsOk(spell, q);
      SamePrint(spell, q);
      var sel := AsSelect(spell, q);
      assert sel.parts == q.table.parts && sel.items == ItemsOf(q.items);
      hide *;
      QueryIsRead(sel);
    } else {
      hide *;
      ComplicatedIsRefused(spell, q);
    }
  }

  /** A text that does not begin with SELECT is refused. */
  lemma OnlySelects(toks: seq<Token>)
    requires toks == [] || !Spells(toks[0].text, "SELECT")
    ensures SourceTable(toks) == None
  {
    if toks != [] {
      ReservedCaps();
      UpperSpells(toks[0].text, "SELECT");
    }
    hide Upper;
    hide AroundFrom;
    hide FirstWord;
    hide CountWord;
  }

  /** So is one without a name right after FROM, or after the dot there. */
  lemma NoNameIsRefused(toks: seq<Token>, from: nat)
    requires from < |toks| && toks[from].kind == Word && Spells(toks[from].text, "FROM")
    requires !NameStands(toks, from + 1) || (from + 2 < |toks| && toks[from + 2].text == "." && !NameStands(toks, from + 3))
    ensures SourceTable(toks) == None
  {
    ReservedCaps();
    UpperSpells(toks[from].text, "FROM");
    hide Upper;
    hide Spells;
    if !Refused(toks) {
      assert CountWord(toks, "FROM") == 1;
      FirstWordIsOnly(toks, from, "FROM");
    }
    hide Refused;
    hide FirstWord;
    hide CountWord;
    hide SelectItems;
    hide OneTable;
    hide Unquote;
  }

  predicate NameStands(toks: seq<Token>, i: nat) {
    i < |toks| && (toks[i].kind == Word || toks[i].kind == QuotedIdent)
  }

  /** A word that looks like a name but is a value. */
  predicate ValueWord(t: Token) {
    t.kind == Word &&
    (Spells(t.text, "NULL") || Spells(t.text, "TRUE") || Spells(t.text, "FALSE") || Spells(t.text, "DEFAULT") ||
     Spells(t.text, "CURRENT_DATE") || Spells(t.text, "CURRENT_TIME") || Spells(t.text, "CURRENT_TIMESTAMP") ||
     Spells(t.text, "CURRENT_USER") || Spells(t.text, "SESSION_USER") || Spells(t.text, "USER") ||
     Spells(t.text, "LOCALTIME") || Spells(t.text, "LOCALTIMESTAMP"))
  }

  lemma ValueCaps()
    ensures AllCaps("NULL") && AllCaps("TRUE") && AllCaps("FALSE") && AllCaps("DEFAULT")
    ensures AllCaps("CURRENT_DATE") && AllCaps("CURRENT_TIME") && AllCaps("CURRENT_TIMESTAMP")
    ensures AllCaps("CURRENT_USER") && AllCaps("SESSION_USER") && AllCaps("USER")
    ensures AllCaps("LOCALTIME") && AllCaps("LOCALTIMESTAMP")
  {
  }

  lemma ValueWordMeans(t: Token)
    ensures ValueWord(t) <==> t.kind == Word && Upper(t.text) in VALUE_WORDS
  {
    ValueCaps();
    UpperSpells(t.text, "NULL");
    UpperSpells(t.text, "TRUE");
    UpperSpells(t.text, "FALSE");
    UpperSpells(t.text, "DEFAULT");
    UpperSpells(t.text, "CURRENT_DATE");
    UpperSpells(t.text, "CURRENT_TIME");
    UpperSpells(t.text, "CURRENT_TIMESTAMP");
    UpperSpells(t.text, "CURRENT_USER");
    UpperSpells(t.text, "SESSION_USER");
    UpperSpells(t.text, "USER");
    UpperSpells(t.text, "LOCALTIME");
    UpperSpells(t.text, "LOCALTIMESTAMP");
    hide Upper;
    hide Spells;
    hide AllCaps;
  }

  /** A single word or quoted name in a select list is a column, except for
      the words that are values; no other single token but `*` means one. */
  lemma OneTokenItem(t: Token)
    ensures Classify([t]) ==
            if IsPunct(t, "*") then Star
            else if t.kind == QuotedIdent || (t.kind == Word && !ValueWord(t)) then Column(Unquote(t.text))
            else Other
  {
    ValueWordMeans(t);
    hide ValueWord;
    hide Unquote;
    hide Upper;
    assert EverySecond([t], 1) == [] && EverySecond([t], 2) == [];
    assert EverySecond([t], 0) == [t] + EverySecond([t], 2) == [t];
  }
}
