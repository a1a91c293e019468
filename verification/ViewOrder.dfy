/** What a sorted column looks like on screen, in terms of the cells' values
    (`SortKey::cmp` and `toggle_sort` in crates/sqail-ui/src/results.rs). */
module ViewOrder {
  import opened Prelude
  import opened ResultSpec
  import SortKeys
  import StableSort

  /** Dictionary order: a prefix comes first, else the first difference
      decides. */
  ghost predicate TextLeq(s: string, t: string) {
    s <= t || exists k: nat :: k < |s| && k < |t| && s[..k] == t[..k] && s[k] < t[k]
  }

  /** The value order of cells: NULL, then false and true, then numbers by
      size, then text; text that is a number by the number, other text as in a
      dictionary. */
  ghost predicate Leq(num: Numbers, a: Cell, b: Cell) {
    match a
    case Null => true
    case Bool(x) => !b.Null? && (b.Bool? && x ==> b.b)
    case Int(x) => b.Text? || (b.Int? && x <= b.i) || (b.Float? && num.round(x) <= b.f)
    case Float(x) => b.Text? || (b.Float? && x <= b.f) || (b.Int? && x <= num.round(b.i))
    case Text(s) =>
      b.Text? &&
      if num.parse(s).Some? && num.parse(b.s).Some? then num.parse(s).value <= num.parse(b.s).value
      else TextLeq(s, b.s)
  }

  lemma TextLeqRest(s: string, t: string)
    requires s != "" && t != "" && s[0] == t[0]
    ensures TextLeq(s, t) <==> TextLeq(s[1..], t[1..])
  {
    assert s == [s[0]] + s[1..] && t == [t[0]] + t[1..];
    if k: nat :| k < |s| && k < |t| && s[..k] == t[..k] && s[k] < t[k] {
      assert s[1..][..k - 1] == s[..k][1..] && t[1..][..k - 1] == t[..k][1..];
      assert s[1..][k - 1] < t[1..][k - 1];
    }
    if k: nat :| k < |s[1..]| && k < |t[1..]| && s[1..][..k] == t[1..][..k] && s[1..][k] < t[1..][k] {
      assert s[..k + 1] == [s[0]] + s[1..][..k] && t[..k + 1] == [t[0]] + t[1..][..k];
      assert s[k + 1] < t[k + 1];
    }
  }

  lemma FirstAgrees(s: string, t: string, k: nat)
    requires 0 < k <= |s| && k <= |t| && s[..k] == t[..k]
    ensures s[0] == t[0]
  {
    assert s[..k][0] == t[..k][0];
  }

  /** `str::cmp` is the dictionary order. */
  lemma {:induction false} CompareTextMeans(s: string, t: string)
    ensures SortKeys.CompareText(s, t) != SortKeys.Greater <==> TextLeq(s, t)
  {
    if s != "" && t != "" {
      if s[0] == t[0] {
        CompareTextMeans(s[1..], t[1..]);
        TextLeqRest(s, t);
      } else {
        if k: nat :| k < |s| && k < |t| && s[..k] == t[..k] && s[k] < t[k] {
          if k > 0 { FirstAgrees(s, t, k); }
        }
        assert s[0] < t[0] ==> s[..0] == t[..0];
      }
    }
  }

  /** The comparator is the value order. */
  lemma CompareMeans(num: Numbers, a: Cell, b: Cell)
    ensures SortKeys.Compare(num.round, SortKey(num, a), SortKey(num, b)) != SortKeys.Greater <==> Leq(num, a, b)
  {
    if a.Text? && b.Text? {
      CompareTextMeans(a.s, b.s);
    }
    hide SortKeys.CompareText;
    hide TextLeq;
  }

  /** The cells of a column in display order go up (or down), and equal ones
      are in the order they arrived. */
  ghost predicate InOrder(num: Numbers, rows: seq<seq<Cell>>, col: nat, ascending: bool, order: seq<nat>)
    requires forall i :: 0 <= i < |rows| ==> col < |rows[i]|
  {
    forall i, j :: 0 <= i < j < |order| && order[i] < |rows| && order[j] < |rows| ==>
      Follows(num, rows[order[i]][col], rows[order[j]][col], ascending, order[i] < order[j])
  }

  /** `a` may stand above `b`; `earlier` says which of them arrived first. */
  ghost predicate Follows(num: Numbers, a: Cell, b: Cell, ascending: bool, earlier: bool) {
    (if ascending then Leq(num, a, b) else Leq(num, b, a)) && (Leq(num, a, b) && Leq(num, b, a) ==> earlier)
  }

  lemma KeyAt(num: Numbers, rows: seq<seq<Cell>>, col: nat, i: nat)
    requires i < |rows| && forall k :: 0 <= k < |rows| ==> col < |rows[k]|
    ensures |Keys(num, rows, col)| == |rows| && Keys(num, rows, col)[i] == SortKey(num, rows[i][col])
  {
  }

  lemma BeforeMeans(num: Numbers, rows: seq<seq<Cell>>, col: nat, ascending: bool, a: nat, b: nat)
    requires a < |rows| && b < |rows| && forall k :: 0 <= k < |rows| ==> col < |rows[k]|
    requires StableSort.Before(StableSort.RowOrder(num.round, Keys(num, rows, col), ascending), a, b)
    ensures Follows(num, rows[a][col], rows[b][col], ascending, a < b)
  {
    var (x, y) := (rows[a][col], rows[b][col]);
    KeyAt(num, rows, col, a);
    KeyAt(num, rows, col, b);
    CompareMeans(num, x, y);
    CompareMeans(num, y, x);
    SortKeys.CompareSwaps(num.round, SortKey(num, x), SortKey(num, y));
    hide SortKeys.Compare;
    hide Leq;
    hide SortKey;
    hide Keys;
  }

  lemma ParsedKeys(num: Numbers, rows: seq<seq<Cell>>, col: nat)
    requires forall i :: 0 <= i < |rows| ==> col < |rows[i]|
    ensures SortKeys.Parsed(Keys(num, rows, col))
  {
  }

  /** The sorted view of a column without clashes shows every row once, its
      values going up, or down when descending, equal ones as they arrived. */
  lemma ViewGoesUp(num: Numbers, rows: seq<seq<Cell>>, col: nat, ascending: bool)
    requires SortKeys.Monotone(num.round) && forall i :: 0 <= i < |rows| ==> col < |rows[i]|
    requires !SortKeys.Clash(num.round, Keys(num, rows, col))
    ensures var order := SortedView(num, rows, col, ascending);
            multiset(order) == multiset(StableSort.Positions(|rows|)) && InOrder(num, rows, col, ascending, order)
  {
    var cmp := StableSort.RowOrder(num.round, Keys(num, rows, col), ascending);
    ParsedKeys(num, rows, col);
    assert |Keys(num, rows, col)| == |rows|;
    StableSort.SortedViewIsStable(num.round, Keys(num, rows, col), ascending);
    var order := SortedView(num, rows, col, ascending);
    hide SortKeys.Clash;
    hide SortKeys.Parsed;
    hide StableSort.Sort;
    hide StableSort.RowOrder;
    hide Follows;
    hide Keys;
    forall i, j | 0 <= i < j < |order| && order[i] < |rows| && order[j] < |rows|
      ensures Follows(num, rows[order[i]][col], rows[order[j]][col], ascending, order[i] < order[j])
    {
      assert StableSort.Before(cmp, order[i], order[j]);
      BeforeMeans(num, rows, col, ascending, order[i], order[j]);
    }
  }

  /** A column of one kind, and NULLs: booleans, integers, floats, numbers
      written as text, or words. */
  ghost predicate OfOneKind(num: Numbers, rows: seq<seq<Cell>>, col: nat)
    requires forall i :: 0 <= i < |rows| ==> col < |rows[i]|
  {
    (forall i :: 0 <= i < |rows| ==> rows[i][col].Null? || rows[i][col].Bool?) ||
    (forall i :: 0 <= i < |rows| ==> rows[i][col].Null? || rows[i][col].Int?) ||
    (forall i :: 0 <= i < |rows| ==> rows[i][col].Null? || rows[i][col].Float?) ||
    (forall i :: 0 <= i < |rows| ==> rows[i][col].Null? || (rows[i][col].Text? && num.parse(rows[i][col].s).Some?)) ||
    (forall i :: 0 <= i < |rows| ==> rows[i][col].Null? || (rows[i][col].Text? && num.parse(rows[i][col].s).None?))
  }

  /** Such a column is always sorted by value. */
  lemma OneKindGoesUp(num: Numbers, rows: seq<seq<Cell>>, col: nat, ascending: bool)
    requires SortKeys.Monotone(num.round) && (forall i :: 0 <= i < |rows| ==> col < |rows[i]|) && OfOneKind(num, rows, col)
    ensures var order := SortedView(num, rows, col, ascending);
            multiset(order) == multiset(StableSort.Positions(|rows|)) && InOrder(num, rows, col, ascending, order)
  {
    var keys := Keys(num, rows, col);
    ParsedKeys(num, rows, col);
    assert SortKeys.OneKind(keys);
    hide SortKeys.Compare;
    hide OfOneKind;
    SortKeys.OneKindIsOrdered(num.round, keys);
    SortKeys.TotalPreorderIffNoClash(num.round, keys);
    hide *;
    ViewGoesUp(num, rows, col, ascending);
  }
}
