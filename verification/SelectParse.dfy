/** Deciding whether a SELECT can be edited: the token-level parser of
    crates/sqail-ui/src/editing.rs. The lexer is not part of this model: the
    tokens it makes, without spaces and comments, are given. */
module Sql {
  import opened Prelude
  import opened Texts

  datatype Kind = Word | QuotedIdent | Str | Number | Variable | Punct | Open | Close | Semicolon
  datatype Token = Token(kind: Kind, text: string)

  /** `to_ascii_uppercase`. */
  function UpperChar(c: char): char {
    if 'a' <= c <= 'z' then c - 'a' + 'A' else c
  }

  function Upper(s: string): (u: string)
    ensures |u| == |s|
  {
    seq(|s|, i requires 0 <= i < |s| => UpperChar(s[i]))
  }

  /** `eq_ignore_ascii_case`. */
  predicate SameName(a: string, b: string) {
    Upper(a) == Upper(b)
  }

  /** `lower` is the small form of the ASCII letter `capital`. */
  predicate CaseOf(lower: char, capital: char) {
    'a' <= lower <= 'z' && 'A' <= capital <= 'Z' && lower - 'a' == capital - 'A'
  }

  /** Names are the same if and only if they differ in the case of ASCII
      letters alone. */
  lemma SameNameIff(a: string, b: string)
    ensures SameName(a, b) <==>
            |a| == |b| && forall i :: 0 <= i < |a| ==> a[i] == b[i] || CaseOf(a[i], b[i]) || CaseOf(b[i], a[i])
  {
    if SameName(a, b) {
      assert |Upper(a)| == |Upper(b)|;
      forall i | 0 <= i < |a| ensures a[i] == b[i] || CaseOf(a[i], b[i]) || CaseOf(b[i], a[i]) {
        assert Upper(a)[i] == Upper(b)[i];
      }
    }
  }

  /** A word token that reads `w`, in any case. */
  predicate IsWord(t: Token, w: string) {
    t.kind == Word && Upper(t.text) == w
  }

  const VALUE_WORDS: set<string> := {
    "NULL", "TRUE", "FALSE", "DEFAULT", "CURRENT_DATE", "CURRENT_TIME", "CURRENT_TIMESTAMP",
    "CURRENT_USER", "SESSION_USER", "USER", "LOCALTIME", "LOCALTIMESTAMP"}

  const BLOCKERS: set<string> := {
    "JOIN", "GROUP", "UNION", "INTERSECT", "EXCEPT", "DISTINCT", "HAVING", "INTO", "OVER",
    "APPLY", "PIVOT", "UNPIVOT"}

  const TAIL_WORDS: set<string> := {"WHERE", "ORDER", "LIMIT", "OFFSET", "FETCH"}

  datatype SelectItem = Star | Column(name: string) | Other
  datatype Source = Source(schema: Option<string>, table: string, items: seq<SelectItem>)

  function TrimStart(s: string): string {
    if s != "" && IsSpace(s[0]) then TrimStart(s[1..]) else s
  }

  function TrimEnd(s: string): string {
    if s != "" && IsSpace(s[|s| - 1]) then TrimEnd(s[..|s| - 1]) else s
  }

  predicate QuotePair(a: char, b: char) {
    (a == '"' && b == '"') || (a == '[' && b == ']') || (a == '`' && b == '`')
  }

  /** `unquote`. */
  function Unquote(s: string): string {
    var t := TrimEnd(TrimStart(s));
    if |t| >= 2 && QuotePair(t[0], t[|t| - 1]) then t[1..|t| - 1] else t
  }

  /** A word or quoted identifier that is not a value keyword. */
  predicate IsName(t: Token) {
    t.kind == QuotedIdent || (t.kind == Word && Upper(t.text) !in VALUE_WORDS)
  }

  predicate IsPunct(t: Token, s: string) {
    t.kind == Punct && t.text == s
  }

  /** Every second token, from the one at index `i`. */
  function EverySecond(toks: seq<Token>, i: nat): seq<Token>
    decreases |toks| - i
  {
    if i >= |toks| then [] else [toks[i]] + EverySecond(toks, i + 2)
  }

  /** `classify`. */
  function Classify(item: seq<Token>): SelectItem {
    if |item| % 2 == 0 || |item| > 5 then Other
    else
      var dots := EverySecond(item, 1);
      var parts := EverySecond(item, 0);
      if parts == [] then Other
      else
        var (last, quals) := (parts[|parts| - 1], parts[..|parts| - 1]);
        if !(forall i :: 0 <= i < |dots| ==> IsPunct(dots[i], ".")) ||
           !(forall i :: 0 <= i < |quals| ==> IsName(quals[i])) then Other
        else if IsPunct(last, "*") then Star
        else if IsName(last) then Column(Unquote(last.text))
        else Other
  }

  /** The index after the parentheses opening at `i`. */
  function SkipParens(toks: seq<Token>, i: nat, depth: int): nat
    decreases |toks| - i
  {
    if i >= |toks| then i
    else if toks[i].kind == Open then SkipParens(toks, i + 1, depth + 1)
    else if toks[i].kind == Close then (if depth == 1 then i + 1 else SkipParens(toks, i + 1, depth - 1))
    else SkipParens(toks, i + 1, depth)
  }

  predicate WordAt(toks: seq<Token>, i: nat, w: string) {
    i < |toks| && IsWord(toks[i], w)
  }

  /** Skip `PERCENT` and `WITH TIES` from index `i`. */
  function SkipTopWords(toks: seq<Token>, i: nat): nat {
    var j := if WordAt(toks, i, "PERCENT") then i + 1 else i;
    if WordAt(toks, j, "WITH") && WordAt(toks, j + 1, "TIES") then j + 2 else j
  }

  /** The index after `TOP` and its number or group, at index `i`. */
  function AfterTop(toks: seq<Token>, i: nat): nat {
    SkipTopWords(toks, if i + 1 < |toks| && toks[i + 1].kind == Open then SkipParens(toks, i + 1, 0) else i + 2)
  }

  /** The index of the first item: after `ALL` and `TOP n` or `TOP (n)`. */
  function ItemsStart(toks: seq<Token>): nat {
    var i := if WordAt(toks, 0, "ALL") then 1 else 0;
    if WordAt(toks, i, "TOP") then AfterTop(toks, i) else i
  }

  /** The depth of parentheses after `t`. */
  function Deeper(t: Token, depth: int): int {
    if t.kind == Open then depth + 1 else if t.kind == Close then depth - 1 else depth
  }

  /** Cut at the commas outside parentheses; `item` is the one in progress. */
  function SplitItems(toks: seq<Token>, depth: int, item: seq<Token>): seq<seq<Token>>
    decreases |toks|
  {
    if toks == [] then [item]
    else
      var t := toks[0];
      if depth == 0 && IsPunct(t, ",") then [item] + SplitItems(toks[1..], depth, [])
      else
        SplitItems(toks[1..], Deeper(t, depth), item + [t])
  }

  function ClassifyAll(items: seq<seq<Token>>): seq<SelectItem> {
    seq(|items|, i requires 0 <= i < |items| => Classify(items[i]))
  }

  /** `select_items`. */
  function SelectItems(toks: seq<Token>): seq<SelectItem> {
    var i := ItemsStart(toks);
    ClassifyAll(SplitItems(if i <= |toks| then toks[i..] else [], 0, []))
  }

  /** How often a word occurs. */
  function CountWord(toks: seq<Token>, w: string): nat {
    if toks == [] then 0 else (if IsWord(toks[0], w) then 1 else 0) + CountWord(toks[1..], w)
  }

  function FirstWord(toks: seq<Token>, w: string): (i: nat)
    ensures i <= |toks|
    ensures i < |toks| ==> IsWord(toks[i], w)
  {
    if toks == [] then 0 else if IsWord(toks[0], w) then 0 else 1 + FirstWord(toks[1..], w)
  }

  /** The name at index `i`: a word or quoted identifier, unquoted. */
  function NameAt(toks: seq<Token>, i: nat): Option<string> {
    if i < |toks| && (toks[i].kind == Word || toks[i].kind == QuotedIdent) then Some(Unquote(toks[i].text)) else None
  }

  /** No comma from index `i` up to the first WHERE, ORDER, ... */
  predicate OneTable(toks: seq<Token>, i: nat)
    decreases |toks| - i
  {
    i >= |toks| ||
    (toks[i].text != "," &&
     ((toks[i].kind == Word && Upper(toks[i].text) in TAIL_WORDS) || OneTable(toks, i + 1)))
  }

  /** Not a single plain SELECT. */
  predicate Refused(toks: seq<Token>) {
    toks == [] || Upper(toks[0].text) != "SELECT" ||
    CountWord(toks, "SELECT") != 1 || CountWord(toks, "FROM") != 1 ||
    exists b :: b in BLOCKERS && CountWord(toks, b) > 0
  }

  /** The table and the items around the FROM at index `from`. */
  function AroundFrom(toks: seq<Token>, from: nat): Option<Source>
    requires 0 < from < |toks|
  {
    var first := NameAt(toks, from + 1);
    var dot := from + 2 < |toks| && toks[from + 2].text == ".";
    var second := NameAt(toks, from + 3);
    if first.None? || (dot && second.None?) || !OneTable(toks, if dot then from + 4 else from + 2) then None
    else
      var items := SelectItems(toks[1..from]);
      Some(if dot then Source(first, second.value, items) else Source(None, first.value, items))
  }

  /** `source_table`. */
  function SourceTable(toks: seq<Token>): Option<Source> {
    if Refused(toks) then None
    else
      var from := FirstWord(toks, "FROM");
      if from >= |toks| || from == 0 then None else AroundFrom(toks, from)
  }
}

/** What the parser must recover: simple SELECTs as syntax trees, and how
    they are written as tokens. */
module SelectSyntax {
  import opened Prelude
  import opened Texts
  import opened Sql

  datatype Name = Plain(text: string) | Quoted(open: char, text: string, close: char)

  predicate QuoteChar(c: char) {
    c == '"' || c == '[' || c == ']' || c == '`'
  }

  /** A name as written: no quote characters inside, no spaces or commas in a
      bare one. */
  predicate NameOk(n: Name) {
    (forall i :: 0 <= i < |n.text| ==> !QuoteChar(n.text[i])) &&
    match n
      case Plain(text) => text != "" && forall i :: 0 <= i < |text| ==> !IsSpace(text[i]) && text[i] != ','
      case Quoted(open, _, close) => QuotePair(open, close)
  }

  function NameToken(n: Name): Token {
    match n
    case Plain(text) => Token(Word, text)
    case Quoted(open, text, close) => Token(QuotedIdent, [open] + text + [close])
  }

  const DOT := Token(Punct, ".")
  const COMMA := Token(Punct, ",")
  const STAR := Token(Punct, "*")

  /** An item: a star or a column, with up to two qualifiers, or any other
      expression. */
  datatype Item = StarItem(quals: seq<Name>) | ColumnItem(quals: seq<Name>, name: Name) | Expression(toks: seq<Token>)

  function Dotted(quals: seq<Name>, last: Token): seq<Token> {
    if quals == [] then [last] else [NameToken(quals[0]), DOT] + Dotted(quals[1..], last)
  }

  function PrintItem(it: Item): seq<Token> {
    match it
    case StarItem(quals) => Dotted(quals, STAR)
    case ColumnItem(quals, name) => Dotted(quals, NameToken(name))
    case Expression(toks) => toks
  }

  function Meaning(it: Item): SelectItem {
    match it
    case StarItem(_) => Star
    case ColumnItem(_, name) => Column(name.text)
    case Expression(_) => Other
  }

  ghost predicate QualsOk(quals: seq<Name>) {
    |quals| <= 2 && forall i :: 0 <= i < |quals| ==> NameOk(quals[i]) && IsName(NameToken(quals[i]))
  }

  /** Depth after `toks`, and whether no comma was met at depth 0. */
  function Depth(toks: seq<Token>, depth: int): int {
    if toks == [] then depth
    else Depth(toks[1..], Deeper(toks[0], depth))
  }

  predicate NoBareComma(toks: seq<Token>, depth: int)
    decreases |toks|
  {
    toks == [] ||
    (!(depth == 0 && IsPunct(toks[0], ",")) &&
     NoBareComma(toks[1..], Deeper(toks[0], depth)))
  }

  /** Not the writing of any star or column. */
  ghost predicate NotAPath(toks: seq<Token>) {
    |toks| % 2 == 0 || |toks| > 5 ||
    !(forall i :: 0 <= i < |toks| && i % 2 == 1 ==> IsPunct(toks[i], ".")) ||
    !(forall i :: 0 <= i < |toks| - 1 && i % 2 == 0 ==> IsName(toks[i])) ||
    !(IsPunct(toks[|toks| - 1], "*") || IsName(toks[|toks| - 1]))
  }

  ghost predicate ItemOk(it: Item) {
    match it
    case StarItem(quals) => QualsOk(quals)
    case ColumnItem(quals, name) => QualsOk(quals) && NameOk(name) && IsName(NameToken(name))
    case Expression(toks) => Depth(toks, 0) == 0 && NoBareComma(toks, 0) && NotAPath(toks)
  }

  lemma {:induction false} TrimStartNothing(s: string)
    requires s != "" ==> !IsSpace(s[0])
    ensures TrimStart(s) == s
  {
  }

  lemma TrimEndNothing(s: string)
    requires s != "" ==> !IsSpace(s[|s| - 1])
    ensures TrimEnd(s) == s
  {
  }

  /** Unquoting a written name gives the name. */
  lemma UnquoteName(n: Name)
    requires NameOk(n)
    ensures Unquote(NameToken(n).text) == n.text
  {
    var t := NameToken(n).text;
    TrimStartNothing(t);
    TrimEndNothing(t);
    if n.Plain? {
      assert !QuoteChar(t[0]);
    } else {
      assert t[1..|t| - 1] == n.text;
    }
  }

  lemma {:induction false} DottedParts(quals: seq<Name>, last: Token)
    ensures EverySecond(Dotted(quals, last), 0) == seq(|quals|, i requires 0 <= i < |quals| => NameToken(quals[i])) + [last]
    ensures EverySecond(Dotted(quals, last), 1) == seq(|quals|, i => DOT)
    ensures |Dotted(quals, last)| == 2 * |quals| + 1
  {
    var d := Dotted(quals, last);
    if quals != [] {
      var rest := Dotted(quals[1..], last);
      DottedParts(quals[1..], last);
      assert d == [NameToken(quals[0]), DOT] + rest;
      EverySecondShift([NameToken(quals[0]), DOT], rest, 0);
      EverySecondShift([NameToken(quals[0]), DOT], rest, 1);
    }
  }

  lemma {:induction false} EverySecondShift(two: seq<Token>, rest: seq<Token>, i: nat)
    requires |two| == 2
    ensures EverySecond(two + rest, i + 2) == EverySecond(rest, i)
    decreases |rest| - i
  {
    if i < |rest| {
      assert (two + rest)[i + 2] == rest[i];
      EverySecondShift(two, rest, i + 2);
    }
  }

  /** The tokens at even indices but the last, and those at odd ones. */
  lemma EverySecondStep(toks: seq<Token>, i: nat)
    requires i < |toks|
    ensures EverySecond(toks, i) == [toks[i]] + EverySecond(toks, i + 2)
  {
  }

  lemma {:induction false} EverySecondIndex(toks: seq<Token>, i: nat, k: nat)
    requires i + 2 * k < |toks|
    ensures k < |EverySecond(toks, i)| && EverySecond(toks, i)[k] == toks[i + 2 * k]
    decreases |toks| - i
  {
    hide EverySecond;
    EverySecondStep(toks, i);
    if k > 0 {
      EverySecondIndex(toks, i + 2, k - 1);
    }
  }

  lemma {:induction false} EverySecondLength(toks: seq<Token>, i: nat)
    requires i <= |toks|
    ensures |EverySecond(toks, i)| == (|toks| - i + 1) / 2
    decreases |toks| - i
  {
    if i + 2 <= |toks| {
      EverySecondLength(toks, i + 2);
    }
  }

  /** Every second token of an item that may be a path. */
  lemma Seconds(toks: seq<Token>)
    requires |toks| % 2 == 1
    ensures var (parts, dots, m) := (EverySecond(toks, 0), EverySecond(toks, 1), |toks| / 2);
            |parts| == m + 1 && |dots| == m && (forall k :: 0 <= k <= m ==> parts[k] == toks[2 * k]) &&
            (forall k :: 0 <= k < m ==> dots[k] == toks[1 + 2 * k])
  {
    hide EverySecond;
    EverySecondLength(toks, 0);
    EverySecondLength(toks, 1);
    var m := |toks| / 2;
    forall k: nat | k <= m ensures k < |EverySecond(toks, 0)| && EverySecond(toks, 0)[k] == toks[2 * k] {
      EverySecondIndex(toks, 0, k);
    }
    forall k: nat | k < m ensures k < |EverySecond(toks, 1)| && EverySecond(toks, 1)[k] == toks[1 + 2 * k] {
      EverySecondIndex(toks, 1, k);
    }
  }

  lemma ClassifyExpression(toks: seq<Token>)
    requires NotAPath(toks)
    ensures Classify(toks) == Other
  {
    if |toks| % 2 == 1 && |toks| <= 5 {
      Seconds(toks);
      hide EverySecond;
      hide IsName;
      hide IsPunct;
      var (parts, dots) := (EverySecond(toks, 0), EverySecond(toks, 1));
      if i :| 0 <= i < |toks| && i % 2 == 1 && !IsPunct(toks[i], ".") {
        assert dots[i / 2] == toks[i];
      } else if i :| 0 <= i < |toks| - 1 && i % 2 == 0 && !IsName(toks[i]) {
        assert parts[i / 2] == toks[i] && i / 2 < |parts| - 1;
      }
    }
  }

  lemma ClassifyDotted(quals: seq<Name>, last: Token)
    requires QualsOk(quals)
    ensures Classify(Dotted(quals, last)) ==
            if IsPunct(last, "*") then Star else if IsName(last) then Column(Unquote(last.text)) else Other
  {
    hide EverySecond;
    hide Dotted;
    hide NameOk;
    DottedParts(quals, last);
    var d := Dotted(quals, last);
    var parts := EverySecond(d, 0);
    assert parts[..|parts| - 1] == seq(|quals|, i requires 0 <= i < |quals| => NameToken(quals[i]));
  }

  /** Each written item is classified as what it means. */
  lemma ClassifyItem(it: Item)
    requires ItemOk(it)
    ensures Classify(PrintItem(it)) == Meaning(it)
  {
    hide Classify;
    hide Unquote;
    match it
    case StarItem(quals) =>
      ClassifyDotted(quals, STAR);
    case ColumnItem(quals, name) =>
      ClassifyDotted(quals, NameToken(name));
      UnquoteName(name);
    case Expression(toks) =>
      ClassifyExpression(toks);
  }

  lemma {:induction false} DottedIsFlat(quals: seq<Name>, last: Token)
    requires last.kind != Open && last.kind != Close && !IsPunct(last, ",")
    ensures Depth(Dotted(quals, last), 0) == 0 && NoBareComma(Dotted(quals, last), 0)
  {
    if quals == [] {
      assert [last][1..] == [];
    } else {
      var rest := Dotted(quals[1..], last);
      DottedIsFlat(quals[1..], last);
      var d := Dotted(quals, last);
      assert d[1..] == [DOT] + rest && d[1..][1..] == rest;
    }
  }

  /** Every well-formed item closes its parentheses and hides its commas. */
  lemma ItemIsFlat(it: Item)
    requires ItemOk(it)
    ensures Depth(PrintItem(it), 0) == 0 && NoBareComma(PrintItem(it), 0)
  {
    match it
    case StarItem(quals) => DottedIsFlat(quals, STAR);
    case ColumnItem(quals, name) => DottedIsFlat(quals, NameToken(name));
    case Expression(_) =>
  }

  /** Flat tokens are taken into the item in progress as a whole. */
  lemma {:induction false} SplitSwallows(toks: seq<Token>, rest: seq<Token>, depth: int, item: seq<Token>)
    requires NoBareComma(toks, depth)
    ensures SplitItems(toks + rest, depth, item) == SplitItems(rest, Depth(toks, depth), item + toks)
    decreases |toks|
  {
    if toks == [] {
      assert toks + rest == rest && item + toks == item;
    } else {
      assert (toks + rest)[0] == toks[0] && (toks + rest)[1..] == toks[1..] + rest;
      SplitSwallows(toks[1..], rest, Deeper(toks[0], depth), item + [toks[0]]);
      assert item + [toks[0]] + toks[1..] == item + toks;
    }
  }

  function PrintItems(items: seq<Item>): seq<Token> {
    if items == [] then [] else if |items| == 1 then PrintItem(items[0])
    else PrintItem(items[0]) + [COMMA] + PrintItems(items[1..])
  }

  ghost predicate ItemsOk(items: seq<Item>) {
    items != [] && forall i :: 0 <= i < |items| ==> ItemOk(items[i])
  }

  function Meanings(items: seq<Item>): seq<SelectItem> {
    seq(|items|, i requires 0 <= i < |items| => Meaning(items[i]))
  }

  /** The list is cut back into its items. */
  lemma {:induction false} ItemsSplit(items: seq<Item>)
    requires ItemsOk(items)
    ensures ClassifyAll(SplitItems(PrintItems(items), 0, [])) == Meanings(items)
    decreases |items|
  {
    hide Classify;
    hide ItemOk;
    hide SplitItems;
    hide Meaning;
    var first := PrintItem(items[0]);
    ItemIsFlat(items[0]);
    ClassifyItem(items[0]);
    if |items| == 1 {
      SplitSwallows(first, [], 0, []);
      assert first + [] == first && [] + first == first;
      SplitEnd(0, first);
    } else {
      var rest := PrintItems(items[1..]);
      SplitSwallows(first, [COMMA] + rest, 0, []);
      assert first + ([COMMA] + rest) == PrintItems(items) && [] + first == first;
      SplitAtComma(rest, first);
      ItemsSplit(items[1..]);
      var tail := SplitItems(rest, 0, []);
      assert Meanings(items) == [Meaning(items[0])] + Meanings(items[1..]);
      assert ClassifyAll([first] + tail) == [Classify(first)] + ClassifyAll(tail);
    }
  }

  lemma SplitEnd(depth: int, item: seq<Token>)
    ensures SplitItems([], depth, item) == [item]
  {
  }

  lemma SplitAtComma(rest: seq<Token>, item: seq<Token>)
    ensures SplitItems([COMMA] + rest, 0, item) == [item] + SplitItems(rest, 0, [])
  {
    assert ([COMMA] + rest)[1..] == rest;
  }

  /** `TOP n` or `TOP (..)`, with PERCENT and WITH TIES. */
  datatype Top = NoTop | TopNumber(n: Token, percent: bool, ties: bool) | TopGroup(inner: seq<Token>, percent: bool, ties: bool)

  /** A simple SELECT. `spell` writes each keyword in upper or lower case,
      `parts` is the dotted name of the table, `tail` everything after it. */
  datatype Select = Select(spell: string -> string, all: bool, top: Top, items: seq<Item>, parts: seq<Name>, tail: seq<Token>)

  const KEYWORDS: set<string> := {"SELECT", "FROM", "ALL", "TOP", "PERCENT", "WITH", "TIES"}
  const BANNED: set<string> := BLOCKERS + {"SELECT", "FROM"}

  function Keyword(q: Select, w: string): Token {
    Token(Word, q.spell(w))
  }

  function PrintTopWords(q: Select, percent: bool, ties: bool): seq<Token> {
    (if percent then [Keyword(q, "PERCENT")] else []) +
    (if ties then [Keyword(q, "WITH"), Keyword(q, "TIES")] else [])
  }

  const OPEN := Token(Open, "(")
  const CLOSE := Token(Close, ")")

  function PrintTop(q: Select): seq<Token> {
    match q.top
    case NoTop => []
    case TopNumber(n, percent, ties) => [Keyword(q, "TOP"), n] + PrintTopWords(q, percent, ties)
    case TopGroup(inner, percent, ties) => [Keyword(q, "TOP"), OPEN] + inner + [CLOSE] + PrintTopWords(q, percent, ties)
  }

  function PrintPrefix(q: Select): seq<Token> {
    (if q.all then [Keyword(q, "ALL")] else []) + PrintTop(q)
  }

  function PrintHead(q: Select): seq<Token> {
    PrintPrefix(q) + PrintItems(q.items)
  }

  function PrintTable(parts: seq<Name>): seq<Token>
    requires parts != []
  {
    Dotted(parts[..|parts| - 1], NameToken(parts[|parts| - 1]))
  }

  function Print(q: Select): seq<Token>
    requires q.parts != []
  {
    [Keyword(q, "SELECT")] + PrintHead(q) + [Keyword(q, "FROM")] + (PrintTable(q.parts) + q.tail)
  }

  /** No word that makes the query too complicated to edit. */
  ghost predicate Free(toks: seq<Token>) {
    forall i :: 0 <= i < |toks| && toks[i].kind == Word ==> Upper(toks[i].text) !in BANNED
  }

  /** The items cannot be taken for a part of `ALL` or `TOP ..` left out. */
  predicate PlainStart(all: bool, top: Top, toks: seq<Token>) {
    match top
    case NoTop => !WordAt(toks, 0, "TOP") && (all || !WordAt(toks, 0, "ALL"))
    case _ => PlainAfterTop(top.percent, top.ties, toks)
  }

  predicate PlainAfterTop(percent: bool, ties: bool, toks: seq<Token>) {
    ties || ((percent || !WordAt(toks, 0, "PERCENT")) && !(WordAt(toks, 0, "WITH") && WordAt(toks, 1, "TIES")))
  }

  /** Inside the parentheses at depth 1 the group never closes. */
  predicate Nested(toks: seq<Token>, depth: int)
    decreases |toks|
  {
    depth >= 1 && (toks == [] || Nested(toks[1..], Deeper(toks[0], depth)))
  }

  ghost predicate TopOk(top: Top) {
    match top
    case NoTop => true
    case TopNumber(n, _, _) => n.kind != Open
    case TopGroup(inner, _, _) => Nested(inner, 1) && Depth(inner, 1) == 1
  }

  ghost predicate SelectOk(q: Select) {
    SpellsWords(q) &&
    TopOk(q.top) && ItemsOk(q.items) && PlainStart(q.all, q.top, PrintItems(q.items)) &&
    q.parts != [] && (forall i :: 0 <= i < |q.parts| ==> NameOk(q.parts[i])) &&
    Free(PrintHead(q)) && Free(PrintTable(q.parts) + q.tail) &&
    (q.tail != [] ==> q.tail[0].text != ".") && OneTable(q.tail, 0)
  }

  lemma {:induction false} CountJoins(a: seq<Token>, b: seq<Token>, w: string)
    ensures CountWord(a + b, w) == CountWord(a, w) + CountWord(b, w)
  {
    if a == [] {
      assert a + b == b;
    } else {
      assert (a + b)[1..] == a[1..] + b;
      CountJoins(a[1..], b, w);
    }
  }

  lemma {:induction false} FreeCount(toks: seq<Token>, w: string)
    requires Free(toks) && w in BANNED
    ensures CountWord(toks, w) == 0
  {
    if toks != [] {
      FreeCount(toks[1..], w);
    }
  }

  lemma {:induction false} FirstWordIs(a: seq<Token>, b: seq<Token>, w: string)
    requires b != [] && IsWord(b[0], w) && forall i :: 0 <= i < |a| ==> !IsWord(a[i], w)
    ensures FirstWord(a + b, w) == |a|
  {
    if a == [] {
      assert a + b == b;
    } else {
      assert (a + b)[1..] == a[1..] + b;
      FirstWordIs(a[1..], b, w);
    }
  }

  lemma CountOne(t: Token, w: string)
    ensures CountWord([t], w) == if IsWord(t, w) then 1 else 0
  {
    assert [t][1..] == [];
    assert CountWord([], w) == 0;
  }

  lemma CountInQuery(select: Token, head: seq<Token>, from: Token, rest: seq<Token>, w: string)
    requires Free(head) && Free(rest) && w in BANNED
    ensures CountWord([select] + head + [from] + rest, w) ==
            (if IsWord(select, w) then 1 else 0) + (if IsWord(from, w) then 1 else 0)
  {
    hide Free;
    hide CountWord;
    FreeCount(head, w);
    FreeCount(rest, w);
    CountOne(select, w);
    CountOne(from, w);
    CountJoins([select] + head + [from], rest, w);
    CountJoins([select] + head, [from], w);
    CountJoins([select], head, w);
  }

  lemma {:induction false} OneTableShift(pre: seq<Token>, toks: seq<Token>, i: nat)
    ensures OneTable(pre + toks, |pre| + i) == OneTable(toks, i)
    decreases |toks| - i
  {
    if i < |toks| {
      assert (pre + toks)[|pre| + i] == toks[i];
      OneTableShift(pre, toks, i + 1);
    }
  }

  ghost predicate CommaFree(toks: seq<Token>) {
    forall k :: 0 <= k < |toks| ==> toks[k].text != ","
  }

  lemma {:induction false} OneTableAfter(pre: seq<Token>, tail: seq<Token>, i: nat)
    requires i <= |pre| && OneTable(tail, 0) && CommaFree(pre)
    ensures OneTable(pre + tail, i)
    decreases |pre| - i
  {
    if i < |pre| {
      OneTableAfter(pre, tail, i + 1);
    } else {
      OneTableShift(pre, tail, 0);
    }
  }

  lemma {:induction false} SkipParensInside(pre: seq<Token>, inner: seq<Token>, rest: seq<Token>, depth: int)
    requires Nested(inner, depth) && Depth(inner, depth) == 1 && rest != [] && rest[0].kind == Close
    ensures SkipParens(pre + inner + rest, |pre|, depth) == |pre| + |inner| + 1
    decreases |inner|
  {
    var toks := pre + inner + rest;
    if inner == [] {
      assert toks[|pre|] == rest[0];
    } else {
      assert toks[|pre|] == inner[0];
      var t := inner[0];
      assert pre + [t] + inner[1..] + rest == toks;
      SkipParensInside(pre + [t], inner[1..], rest, Deeper(t, depth));
      assert Nested(inner[1..], Deeper(t, depth));
      NestedDeep(inner[1..], Deeper(t, depth));
    }
  }

  lemma NestedDeep(toks: seq<Token>, depth: int)
    requires Nested(toks, depth)
    ensures depth >= 1
  {
  }

  predicate SpellsWords(q: Select) {
    forall w :: w in KEYWORDS ==> Upper(q.spell(w)) == w
  }

  lemma KeywordReads(q: Select)
    requires SpellsWords(q)
    ensures IsWord(Keyword(q, "PERCENT"), "PERCENT") && IsWord(Keyword(q, "WITH"), "WITH") && IsWord(Keyword(q, "TIES"), "TIES")
    ensures !IsWord(Keyword(q, "WITH"), "PERCENT")
  {
    hide Upper;
    assert Upper(q.spell("PERCENT")) == "PERCENT" && Upper(q.spell("WITH")) == "WITH" && Upper(q.spell("TIES")) == "TIES";
    assert "WITH" != "PERCENT" by { assert |"WITH"| != |"PERCENT"|; }
  }

  lemma WordShifted(pre: seq<Token>, rest: seq<Token>, k: nat, w: string)
    ensures WordAt(pre + rest, |pre| + k, w) == WordAt(rest, k, w)
  {
    hide IsWord;
    assert k < |rest| ==> (pre + rest)[|pre| + k] == rest[k];
  }

  lemma SkipShifted(pre: seq<Token>, rest: seq<Token>)
    ensures SkipTopWords(pre + rest, |pre|) == |pre| + SkipTopWords(rest, 0)
  {
    hide WordAt;
    WordShifted(pre, rest, 0, "PERCENT");
    WordShifted(pre, rest, 0, "WITH");
    WordShifted(pre, rest, 1, "WITH");
    WordShifted(pre, rest, 1, "TIES");
    WordShifted(pre, rest, 2, "TIES");
  }

  /** PERCENT and WITH TIES are skipped when written, and only then. */
  lemma TopWordsRead(q: Select, percent: bool, ties: bool, rest: seq<Token>)
    requires SpellsWords(q) && PlainAfterTop(percent, ties, rest)
    ensures SkipTopWords(PrintTopWords(q, percent, ties) + rest, 0) == |PrintTopWords(q, percent, ties)|
  {
    KeywordReads(q);
    hide IsWord;
    hide SpellsWords;
    var words := PrintTopWords(q, percent, ties);
    var toks := words + rest;
    assert forall i :: 0 <= i < |words| ==> toks[i] == words[i];
    if !ties {
      WordShifted(words, rest, 0, "PERCENT");
      WordShifted(words, rest, 0, "WITH");
      WordShifted(words, rest, 1, "TIES");
    }
    hide Keyword;
  }

  lemma TopWordsSkipped(q: Select, pre: seq<Token>, percent: bool, ties: bool, rest: seq<Token>)
    requires SpellsWords(q) && PlainAfterTop(percent, ties, rest)
    ensures SkipTopWords(pre + PrintTopWords(q, percent, ties) + rest, |pre|) ==
            |pre| + |PrintTopWords(q, percent, ties)|
  {
    hide *;
    var words := PrintTopWords(q, percent, ties);
    TopWordsRead(q, percent, ties, rest);
    SkipShifted(pre, words + rest);
    ConcatAssoc(pre, words, rest);
  }

  lemma TopNumberSkipped(q: Select, pre: seq<Token>, rest: seq<Token>)
    requires q.top.TopNumber? && SpellsWords(q) && PlainAfterTop(q.top.percent, q.top.ties, rest) && TopOk(q.top)
    ensures AfterTop(pre + PrintTop(q) + rest, |pre|) == |pre| + |PrintTop(q)|
  {
    hide Upper;
    hide SkipTopWords;
    hide PlainAfterTop;
    hide SpellsWords;
    var toks := pre + PrintTop(q) + rest;
    var head := pre + [Keyword(q, "TOP"), q.top.n];
    assert toks[|pre| + 1] == q.top.n;
    assert toks == head + PrintTopWords(q, q.top.percent, q.top.ties) + rest;
    TopWordsSkipped(q, head, q.top.percent, q.top.ties, rest);
  }

  lemma TopGroupSkipped(q: Select, pre: seq<Token>, rest: seq<Token>)
    requires q.top.TopGroup? && SpellsWords(q) && PlainAfterTop(q.top.percent, q.top.ties, rest) && TopOk(q.top)
    ensures AfterTop(pre + PrintTop(q) + rest, |pre|) == |pre| + |PrintTop(q)|
  {
    hide Upper;
    hide SkipTopWords;
    hide PlainAfterTop;
    hide SpellsWords;
    var toks := pre + PrintTop(q) + rest;
    var inner := q.top.inner;
    var words := PrintTopWords(q, q.top.percent, q.top.ties);
    hide PrintTopWords;
    var head := pre + [Keyword(q, "TOP"), OPEN];
    var upTo := head + inner + [CLOSE];
    assert toks == upTo + words + rest;
    assert toks == head + inner + ([CLOSE] + words + rest);
    assert toks[|pre| + 1] == OPEN;
    SkipParensInside(head, inner, [CLOSE] + words + rest, 1);
    assert SkipParens(toks, |pre| + 1, 0) == SkipParens(toks, |pre| + 2, 1);
    TopWordsSkipped(q, upTo, q.top.percent, q.top.ties, rest);
  }

  /** `ALL` and `TOP ..` are skipped exactly. */
  lemma PrefixSkipped(q: Select)
    requires SelectOk(q)
    ensures ItemsStart(PrintHead(q)) == |PrintPrefix(q)|
  {
    hide Upper;
    hide Free;
    hide ItemsOk;
    hide PrintItems;
    var rest := PrintItems(q.items);
    var head := PrintHead(q);
    var pre := if q.all then [Keyword(q, "ALL")] else [];
    assert head == pre + PrintTop(q) + rest;
    assert Upper(q.spell("ALL")) == "ALL" && Upper(q.spell("TOP")) == "TOP";
    assert "ALL" != "TOP" by { assert "ALL"[0] != "TOP"[0]; }
    if q.top == NoTop {
      assert head == pre + rest;
      assert rest != [] ==> head[|pre|] == rest[0];
    } else {
      hide PlainAfterTop;
      assert head[|pre|] == Keyword(q, "TOP");
      if q.top.TopNumber? {
        TopNumberSkipped(q, pre, rest);
      } else {
        TopGroupSkipped(q, pre, rest);
      }
      assert ItemsStart(head) == AfterTop(head, |pre|);
    }
    assert q.all ==> head[0] == Keyword(q, "ALL");
  }

  lemma HeadItems(q: Select)
    requires SelectOk(q)
    ensures SelectItems(PrintHead(q)) == Meanings(q.items)
  {
    PrefixSkipped(q);
    hide SplitItems;
    ItemsSplit(q.items);
    assert PrintHead(q)[|PrintPrefix(q)|..] == PrintItems(q.items);
  }

  lemma {:induction false} DottedHasNoComma(quals: seq<Name>, last: Name)
    requires NameOk(last) && forall i :: 0 <= i < |quals| ==> NameOk(quals[i])
    ensures CommaFree(Dotted(quals, NameToken(last)))
  {
    NameIsNoComma(last);
    hide NameOk;
    if quals != [] {
      NameIsNoComma(quals[0]);
      DottedHasNoComma(quals[1..], last);
      DotIsNoComma();
    }
  }

  lemma DotIsNoComma()
    ensures DOT.text != ","
  {
    assert DOT.text[0] == '.';
  }

  lemma NameIsNoComma(n: Name)
    requires NameOk(n)
    ensures NameToken(n).text != ","
  {
    if n.Plain? {
      assert n.text[0] != ',';
    } else {
      assert NameToken(n).text[0] == n.open;
    }
  }

  /** What the parser takes for the table: the first part, or the first two. */
  function ReadTable(parts: seq<Name>): (Option<string>, string)
    requires parts != []
  {
    if |parts| == 1 then (None, parts[0].text) else (Some(parts[0].text), parts[1].text)
  }

  lemma TableStart(parts: seq<Name>)
    requires parts != []
    ensures var d := PrintTable(parts);
            d[0] == NameToken(parts[0]) && |d| == 2 * |parts| - 1 &&
            (|parts| > 1 ==> d[1] == DOT && d[2] == NameToken(parts[1]))
  {
    DottedParts(parts[..|parts| - 1], NameToken(parts[|parts| - 1]));
  }

  /** The name, the dot and what follows, as the parser looks at them. */
  lemma TableRead(pre: seq<Token>, parts: seq<Name>, tail: seq<Token>)
    requires parts != [] && forall i :: 0 <= i < |parts| ==> NameOk(parts[i])
    requires (tail != [] ==> tail[0].text != ".") && OneTable(tail, 0)
    ensures var toks := pre + (PrintTable(parts) + tail);
            var dot := |pre| + 1 < |toks| && toks[|pre| + 1].text == ".";
            (dot <==> |parts| > 1) && NameAt(toks, |pre|) == Some(parts[0].text) &&
            (dot ==> NameAt(toks, |pre| + 2) == Some(parts[1].text)) &&
            OneTable(toks, if dot then |pre| + 3 else |pre| + 1)
  {
    hide NameOk;
    hide Unquote;
    var table := PrintTable(parts);
    var after := table + tail;
    var toks := pre + after;
    TableStart(parts);
    assert forall i :: 0 <= i < |after| ==> toks[|pre| + i] == after[i];
    UnquoteName(parts[0]);
    DottedHasNoComma(parts[..|parts| - 1], parts[|parts| - 1]);
    if |parts| > 1 {
      UnquoteName(parts[1]);
      OneTableAfter(table, tail, 3);
      OneTableShift(pre, after, 3);
    } else {
      assert tail != [] ==> after[1] == tail[0];
      OneTableAfter(table, tail, 1);
      OneTableShift(pre, after, 1);
    }
  }

  lemma WordsDiffer()
    ensures "SELECT" != "FROM" && "SELECT" in BANNED && "FROM" in BANNED
    ensures "SELECT" !in BLOCKERS && "FROM" !in BLOCKERS
  {
    assert |"SELECT"| != |"FROM"|;
    assert "SELECT"[0] == 'S' && "FROM"[0] == 'F';
  }

  lemma QueryCounts(q: Select)
    requires SelectOk(q)
    ensures !Refused(Print(q)) && FirstWord(Print(q), "FROM") == |PrintHead(q)| + 1 < |Print(q)|
  {
    var select, from := Keyword(q, "SELECT"), Keyword(q, "FROM");
    var head, after := PrintHead(q), PrintTable(q.parts) + q.tail;
    WordsDiffer();
    assert Upper(q.spell("SELECT")) == "SELECT" && Upper(q.spell("FROM")) == "FROM";
    hide Upper;
    hide ItemsOk;
    hide PrintHead;
    hide PrintTable;
    hide CountWord;
    forall w | w in BANNED
      ensures CountWord(Print(q), w) == (if IsWord(select, w) then 1 else 0) + (if IsWord(from, w) then 1 else 0)
    {
      CountInQuery(select, head, from, after, w);
    }
    FromIsFound(select, head, from, after);
  }

  /** The parser finds its way through any such query. */
  lemma QueryIsRead(q: Select)
    requires SelectOk(q)
    ensures SourceTable(Print(q)) ==
            Some(Source(ReadTable(q.parts).0, ReadTable(q.parts).1, Meanings(q.items)))
  {
    QueryCounts(q);
    AroundFromIs(q);
    hide AroundFrom;
    hide FirstWord;
    hide Refused;
    hide SelectOk;
    hide Print;
    hide Meanings;
  }

  lemma AroundFromWhen(toks: seq<Token>, from: nat, parts: seq<Name>)
    requires 0 < from < |toks| && parts != []
    requires var dot := from + 2 < |toks| && toks[from + 2].text == ".";
             (dot <==> |parts| > 1) && NameAt(toks, from + 1) == Some(parts[0].text) &&
             (dot ==> NameAt(toks, from + 3) == Some(parts[1].text)) &&
             OneTable(toks, if dot then from + 4 else from + 2)
    ensures AroundFrom(toks, from) ==
            Some(Source(ReadTable(parts).0, ReadTable(parts).1, SelectItems(toks[1..from])))
  {
    hide SelectItems;
    hide OneTable;
    hide NameAt;
  }

  lemma PartsOk(q: Select)
    requires SelectOk(q)
    ensures q.parts != [] && (forall i :: 0 <= i < |q.parts| ==> NameOk(q.parts[i]))
    ensures (q.tail != [] ==> q.tail[0].text != ".") && OneTable(q.tail, 0)
  {
    hide NameOk;
    hide OneTable;
  }

  lemma PrintParts(q: Select)
    requires q.parts != []
    ensures var pre := [Keyword(q, "SELECT")] + PrintHead(q) + [Keyword(q, "FROM")];
            |pre| == |PrintHead(q)| + 2 && Print(q) == pre + (PrintTable(q.parts) + q.tail) &&
            Print(q)[1..|PrintHead(q)| + 1] == PrintHead(q)
  {
    hide PrintHead;
    hide PrintTable;
    hide Keyword;
    ConcatAssoc([Keyword(q, "SELECT")] + PrintHead(q), [Keyword(q, "FROM")], PrintTable(q.parts) + q.tail);
  }

  lemma AroundFromIs(q: Select)
    requires SelectOk(q) && |PrintHead(q)| + 1 < |Print(q)|
    ensures AroundFrom(Print(q), |PrintHead(q)| + 1) ==
            Some(Source(ReadTable(q.parts).0, ReadTable(q.parts).1, Meanings(q.items)))
  {
    var pre := [Keyword(q, "SELECT")] + PrintHead(q) + [Keyword(q, "FROM")];
    PartsOk(q);
    hide *;
    PrintParts(q);
    HeadItems(q);
    TableRead(pre, q.parts, q.tail);
    AroundFromWhen(Print(q), |PrintHead(q)| + 1, q.parts);
  }

  lemma FromIsFound(select: Token, head: seq<Token>, from: Token, after: seq<Token>)
    requires IsWord(select, "SELECT") && IsWord(from, "FROM") && Free(head)
    ensures FirstWord([select] + head + [from] + after, "FROM") == |head| + 1
  {
    WordsDiffer();
    hide Upper;
    var a := [select] + head;
    forall i | 0 <= i < |a| ensures !IsWord(a[i], "FROM") {
      if i > 0 {
        assert a[i] == head[i - 1];
      }
    }
    FirstWordIs(a, [from] + after, "FROM");
    assert a + ([from] + after) == [select] + head + [from] + after;
  }

  /** Round trip: a simple SELECT from a one- or two-part table is read back
      exactly. */
  lemma SelectRoundTrip(q: Select)
    requires SelectOk(q) && |q.parts| <= 2
    ensures SourceTable(Print(q)) ==
            Some(Source(if |q.parts| == 2 then Some(q.parts[0].text) else None,
                        q.parts[|q.parts| - 1].text, Meanings(q.items)))
  {
    QueryIsRead(q);
    hide *;
  }

  /** A longer table name is cut to its first two parts, so the table the
      query means (the last part, in the schema before it) is found exactly
      when the name has at most two parts or they happen to repeat. */
  lemma LongTableNames(q: Select)
    requires SelectOk(q) && |q.parts| >= 2
    ensures var n := |q.parts|;
            var source := SourceTable(Print(q));
            source.Some? && source.value.items == Meanings(q.items) &&
            ((source.value.schema == Some(q.parts[n - 2].text) && source.value.table == q.parts[n - 1].text) <==>
             (n == 2 || (q.parts[0].text == q.parts[n - 2].text && q.parts[1].text == q.parts[n - 1].text)))
  {
    QueryIsRead(q);
    hide SourceTable;
    hide SelectOk;
    hide Meanings;
    hide Print;
  }

  /** A name written with its closing quote doubled inside, as SQL asks. */
  function Doubled(text: string, close: char): string {
    if text == "" then "" else (if text[0] == close then [close, close] else [text[0]]) + Doubled(text[1..], close)
  }

  lemma {:induction false} DoubledIsLonger(text: string, close: char)
    ensures |Doubled(text, close)| >= |text|
    ensures close in text ==> |Doubled(text, close)| > |text|
    ensures close !in text ==> Doubled(text, close) == text
  {
    if text != "" {
      DoubledIsLonger(text[1..], close);
      assert text == [text[0]] + text[1..];
    }
  }

  /** Quotes inside a quoted name are not undoubled: the name comes back
      exactly when it holds no closing quote. */
  lemma QuotedNameComesBackIff(open: char, text: string, close: char)
    requires QuotePair(open, close)
    ensures Unquote([open] + Doubled(text, close) + [close]) == text <==> close !in text
  {
    var t := [open] + Doubled(text, close) + [close];
    TrimStartNothing(t);
    TrimEndNothing(t);
    assert t[1..|t| - 1] == Doubled(text, close);
    DoubledIsLonger(text, close);
  }
}

/** The parser as written: loops over the tokens. */
module SelectParser {
  import opened Prelude
  import opened Sql

  /** Skip a parenthesised group. */
  method SkipGroup(toks: seq<Token>, start: nat) returns (i: nat)
    ensures i == SkipParens(toks, start, 0)
  {
    i := start;
    var depth := 0;
    while i < |toks|
      invariant SkipParens(toks, start, 0) == SkipParens(toks, i, depth)
      decreases |toks| - i
    {
      var t := toks[i];
      i := i + 1;
      if t.kind == Open {
        depth := depth + 1;
      } else if t.kind == Close {
        depth := depth - 1;
        if depth == 0 { return; }
      }
    }
  }

  /** The index of the first item. */
  method SkipPrefix(toks: seq<Token>) returns (i: nat)
    ensures i == ItemsStart(toks)
  {
    i := 0;
    if WordAt(toks, 0, "ALL") { i := 1; }
    if WordAt(toks, i, "TOP") {
      i := i + 1;
      if i < |toks| && toks[i].kind == Open {
        i := SkipGroup(toks, i);
      } else {
        i := i + 1;
      }
      if WordAt(toks, i, "PERCENT") { i := i + 1; }
      if WordAt(toks, i, "WITH") && WordAt(toks, i + 1, "TIES") { i := i + 2; }
    }
  }

  /** The items still to come at token `k`. */
  ghost function ToCome(toks: seq<Token>, k: nat, depth: int, item: seq<Token>): seq<SelectItem>
    requires k <= |toks|
  {
    ClassifyAll(SplitItems(toks[k..], depth, item))
  }

  lemma ToComeStep(toks: seq<Token>, k: nat, depth: int, item: seq<Token>)
    requires k < |toks|
    ensures ToCome(toks, k, depth, item) ==
            if depth == 0 && IsPunct(toks[k], ",") then [Classify(item)] + ToCome(toks, k + 1, depth, [])
            else ToCome(toks, k + 1, Deeper(toks[k], depth), item + [toks[k]])
  {
    hide Classify;
    assert toks[k..][1..] == toks[k + 1..];
  }

  lemma ToComeStart(toks: seq<Token>, i: nat, rest: seq<Token>)
    requires i == ItemsStart(toks) && rest == if i <= |toks| then toks[i..] else []
    ensures SelectItems(toks) == ToCome(rest, 0, 0, [])
  {
    hide ItemsStart;
    hide SplitItems;
    hide ClassifyAll;
    assert rest[0..] == rest;
  }

  lemma ToComeEnd(toks: seq<Token>, depth: int, item: seq<Token>)
    ensures ToCome(toks, |toks|, depth, item) == [Classify(item)]
  {
    hide Classify;
    assert toks[|toks|..] == [];
    assert SplitItems([], depth, item) == [item];
  }

  /** Cut a select list at its top-level commas and read each part. */
  method ParseItems(toks: seq<Token>) returns (items: seq<SelectItem>)
    ensures items == SelectItems(toks)
  {
    var i := SkipPrefix(toks);
    var rest := if i <= |toks| then toks[i..] else [];
    ToComeStart(toks, i, rest);
    hide *;
    items := [];
    var depth := 0;
    var item: seq<Token> := [];
    var k := 0;
    while k < |rest|
      invariant k <= |rest| && items + ToCome(rest, k, depth, item) == SelectItems(toks)
    {
      var t := rest[k];
      ToComeStep(rest, k, depth, item);
      if depth == 0 && IsPunct(t, ",") {
        ConcatAssoc(items, [Classify(item)], ToCome(rest, k + 1, 0, []));
        items := items + [Classify(item)];
        item := [];
      } else {
        depth := Deeper(t, depth);
        item := item + [t];
      }
      k := k + 1;
    }
    ToComeEnd(rest, depth, item);
    items := items + [Classify(item)];
  }

  /** No comma before the WHERE, ORDER, ... part. */
  method NoSecondTable(toks: seq<Token>, start: nat) returns (one: bool)
    ensures one == OneTable(toks, start)
  {
    var i := start;
    while i < |toks|
      invariant OneTable(toks, start) == OneTable(toks, i)
      decreases |toks| - i
    {
      if toks[i].text == "," { return false; }
      if toks[i].kind == Word && Upper(toks[i].text) in TAIL_WORDS { break; }
      i := i + 1;
    }
    return true;
  }

  /** The table and select list of a query on one table; None for any other. */
  method ParseSource(toks: seq<Token>) returns (source: Option<Source>)
    ensures source == SourceTable(toks)
  {
    if toks == [] || Upper(toks[0].text) != "SELECT" { return None; }
    if CountWord(toks, "SELECT") != 1 || CountWord(toks, "FROM") != 1 ||
       exists b :: b in BLOCKERS && CountWord(toks, b) > 0 {
      return None;
    }
    var from := FirstWord(toks, "FROM");
    if from >= |toks| || from == 0 { return None; }
    var first := NameAt(toks, from + 1);
    if first.None? { return None; }
    var dot := from + 2 < |toks| && toks[from + 2].text == ".";
    var schema, table, after := None, first.value, from + 2;
    if dot {
      var second := NameAt(toks, from + 3);
      if second.None? { return None; }
      schema, table, after := first, second.value, from + 4;
    }
    var one := NoSecondTable(toks, after);
    if !one { return None; }
    var items := ParseItems(toks[1..from]);
    return Some(Source(schema, table, items));
  }
}
