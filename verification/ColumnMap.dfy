/** Tying result columns to table columns, and choosing what is editable
    (crates/sqail-ui/src/editing.rs: `map_columns`, `EditState::new`). */
module ColumnSpec {
  import opened Prelude
  import opened Sql
  import SortKeys
  import StableSort

  datatype ColumnInfo = ColumnInfo(name: string, ordinal: int, dataType: string, primaryKey: bool)

  function ByOrdinal(cols: seq<ColumnInfo>): (nat, nat) -> SortKeys.Ordering {
    (a: nat, b: nat) =>
      if a < |cols| && b < |cols| then SortKeys.CompareInt(cols[a].ordinal, cols[b].ordinal) else SortKeys.Equal
  }

  lemma OrdinalsAreOrdered(cols: seq<ColumnInfo>)
    ensures StableSort.Preorder(ByOrdinal(cols), |cols|)
  {
  }

  /** The table's columns in table order: a stable sort by ordinal. */
  function InTableOrder(cols: seq<ColumnInfo>): (ordered: seq<ColumnInfo>)
    ensures |ordered| == |cols|
  {
    StableSort.SortIsPermutation(ByOrdinal(cols), |cols|);
    var order := StableSort.Sort(ByOrdinal(cols), |cols|);
    seq(|cols|, i requires 0 <= i < |cols| => cols[order[i]])
  }

  function Picked(cols: seq<ColumnInfo>, order: seq<nat>): seq<ColumnInfo>
    requires AllBelow(order, |cols|)
  {
    seq(|order|, i requires 0 <= i < |order| => cols[order[i]])
  }

  ghost predicate AllBelow(order: seq<nat>, n: nat) {
    forall i :: 0 <= i < |order| ==> order[i] < n
  }

  lemma PickedJoins(cols: seq<ColumnInfo>, a: seq<nat>, b: seq<nat>)
    requires AllBelow(a, |cols|) && AllBelow(b, |cols|)
    ensures AllBelow(a + b, |cols|) && Picked(cols, a + b) == Picked(cols, a) + Picked(cols, b)
  {
  }

  lemma Cancel(x: multiset<nat>, a: multiset<nat>, front: multiset<nat>, back: multiset<nat>)
    requires x + a == front + (x + back)
    ensures a == front + back
  {
    forall n: nat ensures a[n] == (front + back)[n] {
      assert (x + a)[n] == (front + (x + back))[n];
    }
  }

  lemma SplitAround(b: seq<nat>, x: nat) returns (front: seq<nat>, back: seq<nat>)
    requires x in b
    ensures b == front + ([x] + back)
  {
    var k :| 0 <= k < |b| && b[k] == x;
    front, back := b[..k], b[k + 1..];
  }

  lemma PullOut(a: seq<nat>, b: seq<nat>) returns (front: seq<nat>, back: seq<nat>)
    requires a != [] && multiset(a) == multiset(b)
    ensures b == front + ([a[0]] + back) && multiset(a[1..]) == multiset(front + back)
  {
    assert a[0] in multiset(a);
    front, back := SplitAround(b, a[0]);
    assert a == [a[0]] + a[1..];
    Cancel(multiset([a[0]]), multiset(a[1..]), multiset(front), multiset(back));
  }

  lemma BelowSplit(a: seq<nat>, b: seq<nat>, n: nat)
    requires AllBelow(a + b, n)
    ensures AllBelow(a, n) && AllBelow(b, n)
  {
    assert forall i :: 0 <= i < |a| ==> (a + b)[i] == a[i];
    assert forall i :: 0 <= i < |b| ==> (a + b)[|a| + i] == b[i];
  }

  /** Taking positions in another order takes the same columns. */
  lemma {:induction false} PickedAgain(cols: seq<ColumnInfo>, a: seq<nat>, b: seq<nat>)
    requires AllBelow(a, |cols|) && AllBelow(b, |cols|) && multiset(a) == multiset(b)
    ensures multiset(Picked(cols, a)) == multiset(Picked(cols, b))
    decreases |a|
  {
    if a == [] {
      assert |multiset(b)| == 0;
    } else {
      var front, back := PullOut(a, b);
      assert a == [a[0]] + a[1..];
      hide AllBelow;
      BelowSplit([a[0]], a[1..], |cols|);
      BelowSplit(front, [a[0]] + back, |cols|);
      BelowSplit([a[0]], back, |cols|);
      hide Picked;
      PickedJoins(cols, [a[0]], a[1..]);
      PickedJoins(cols, [a[0]], back);
      PickedJoins(cols, front, [a[0]] + back);
      PickedJoins(cols, front, back);
      PickedAgain(cols, a[1..], front + back);
    }
  }

  lemma {:induction false} PickedAll(cols: seq<ColumnInfo>, n: nat)
    requires n <= |cols|
    ensures AllBelow(StableSort.Positions(n), |cols|)
    ensures Picked(cols, StableSort.Positions(n)) == cols[..n]
  {
    if n > 0 {
      PickedAll(cols, n - 1);
      var front := StableSort.Positions(n - 1);
      assert Picked(cols, front + [n - 1]) == Picked(cols, front) + [cols[n - 1]];
    }
  }

  /** Table order: the same columns, by ascending ordinal, those with the same
      ordinal as they were given. */
  lemma TableOrder(cols: seq<ColumnInfo>) returns (order: seq<nat>)
    ensures |order| == |cols| && forall i :: 0 <= i < |order| ==> order[i] < |cols| && InTableOrder(cols)[i] == cols[order[i]]
    ensures multiset(InTableOrder(cols)) == multiset(cols)
    ensures forall i, j :: 0 <= i < j < |order| ==> OrdinalBefore(cols, order[i], order[j])
  {
    order := StableSort.Sort(ByOrdinal(cols), |cols|);
    OrdinalsAreOrdered(cols);
    StableSort.SortIsStableSort(ByOrdinal(cols), |cols|);
    assert InTableOrder(cols) == Picked(cols, order) && AllBelow(order, |cols|);
    assert cols[..|cols|] == cols;
    hide StableSort.Sort;
    hide StableSort.Preorder;
    hide StableSort.Positions;
    hide StableSort.Before;
    hide ByOrdinal;
    PickedAll(cols, |cols|);
    PickedAgain(cols, order, StableSort.Positions(|cols|));
    forall i, j | 0 <= i < j < |order| ensures OrdinalBefore(cols, order[i], order[j]) {
      assert StableSort.Before(ByOrdinal(cols), order[i], order[j]);
      ComparedByOrdinal(cols, order[i], order[j]);
    }
  }

  ghost predicate OrdinalBefore(cols: seq<ColumnInfo>, a: nat, b: nat) {
    a < |cols| && b < |cols| &&
    (cols[a].ordinal < cols[b].ordinal || (cols[a].ordinal == cols[b].ordinal && a < b))
  }

  lemma ComparedByOrdinal(cols: seq<ColumnInfo>, a: nat, b: nat)
    requires a < |cols| && b < |cols| && StableSort.Before(ByOrdinal(cols), a, b)
    ensures OrdinalBefore(cols, a, b)
  {
  }

  /** The table column named `name`, if the result column agrees. */
  function FindColumn(cols: seq<ColumnInfo>, name: string, resultName: string): Option<ColumnInfo> {
    if cols == [] then None
    else if SameName(cols[0].name, name) && SameName(cols[0].name, resultName) then Some(cols[0])
    else FindColumn(cols[1..], name, resultName)
  }

  /** A star lines up with the next result columns. */
  predicate StarFits(names: seq<string>, ordered: seq<ColumnInfo>) {
    |ordered| <= |names| && forall i :: 0 <= i < |ordered| ==> SameName(names[i], ordered[i].name)
  }

  function AllSome(cols: seq<ColumnInfo>): seq<Option<ColumnInfo>> {
    seq(|cols|, i requires 0 <= i < |cols| => Some(cols[i]))
  }

  /** `map_columns`: the table column behind each result column, or nothing
      if the result does not line up with the select list. */
  function MapColumns(items: seq<SelectItem>, names: seq<string>, cols: seq<ColumnInfo>): Option<seq<Option<ColumnInfo>>>
    decreases |items|
  {
    if items == [] then (if names == [] then Some([]) else None)
    else match items[0]
      case Star =>
        var ordered := InTableOrder(cols);
        if !StarFits(names, ordered) then None
        else
          var rest := MapColumns(items[1..], names[|ordered|..], cols);
          if rest.None? then None else Some(AllSome(ordered) + rest.value)
      case Column(name) =>
        if names == [] then None
        else
          var rest := MapColumns(items[1..], names[1..], cols);
          if rest.None? then None else Some([FindColumn(cols, name, names[0])] + rest.value)
      case Other =>
        if names == [] then None
        else
          var rest := MapColumns(items[1..], names[1..], cols);
          if rest.None? then None else Some([None] + rest.value)
  }

  /** A result column with the table column its values really come from. */
  datatype ResultColumn = ResultColumn(name: string, origin: Option<ColumnInfo>)

  ghost predicate DistinctNames(cols: seq<ColumnInfo>) {
    forall i, j :: 0 <= i < j < |cols| ==> !SameName(cols[i].name, cols[j].name)
  }

  /** A bare column is the table column of that name (up to ASCII case), or
      something else entirely when the table has none. */
  ghost predicate ColumnComesFrom(cols: seq<ColumnInfo>, name: string, r: ResultColumn) {
    match r.origin
    case Some(t) => t in cols && SameName(t.name, name) && SameName(t.name, r.name)
    case None => forall t :: t in cols ==> !SameName(t.name, name)
  }

  /** What the database makes of the select list. Any other expression may
      well take its values from a column, as `id AS x` does. */
  ghost predicate Evaluates(items: seq<SelectItem>, cols: seq<ColumnInfo>, res: seq<ResultColumn>)
    decreases |items|
  {
    if items == [] then res == []
    else match items[0]
      case Star =>
        var n := |cols|;
        n <= |res| &&
        (forall i :: 0 <= i < n ==> res[i].origin == Some(InTableOrder(cols)[i]) &&
                                    SameName(res[i].name, InTableOrder(cols)[i].name)) &&
        Evaluates(items[1..], cols, res[n..])
      case Column(name) =>
        res != [] && ColumnComesFrom(cols, name, res[0]) && Evaluates(items[1..], cols, res[1..])
      case Other =>
        res != [] && Evaluates(items[1..], cols, res[1..])
  }

  function Names(res: seq<ResultColumn>): seq<string> {
    seq(|res|, i requires 0 <= i < |res| => res[i].name)
  }

  /** The select item each result column comes from: a star stands for `n`. */
  function ItemPerColumn(items: seq<SelectItem>, n: nat): seq<SelectItem> {
    if items == [] then []
    else (if items[0].Star? then seq(n, _ => Star) else [items[0]]) + ItemPerColumn(items[1..], n)
  }

  /** The origin of each column that is not an expression of its own. */
  function Origins(per: seq<SelectItem>, res: seq<ResultColumn>): seq<Option<ColumnInfo>>
    requires |per| == |res|
  {
    seq(|res|, i requires 0 <= i < |res| => if per[i].Other? then None else res[i].origin)
  }

  lemma {:induction false} FindIsOrigin(cols: seq<ColumnInfo>, name: string, r: ResultColumn)
    requires DistinctNames(cols) && ColumnComesFrom(cols, name, r)
    ensures FindColumn(cols, name, r.name) == r.origin
  {
    hide SameName;
    if cols != [] {
      assert cols == [cols[0]] + cols[1..];
      if r.origin == Some(cols[0]) {
      } else {
        if r.origin.Some? {
          OnlyOneNamed(cols, r.origin.value, name);
          assert r.origin.value in cols[1..];
        } else {
          assert cols[0] in cols;
        }
        FindIsOrigin(cols[1..], name, r);
      }
    }
  }

  lemma OnlyOneNamed(cols: seq<ColumnInfo>, t: ColumnInfo, name: string)
    requires DistinctNames(cols) && cols != [] && t in cols && t != cols[0] && SameName(t.name, name)
    ensures !SameName(cols[0].name, name)
  {
    var i :| 0 <= i < |cols| && cols[i] == t;
    assert !SameName(cols[0].name, cols[i].name);
  }

  /** The columns of the first item, and the rest. */
  lemma ItemTails(items: seq<SelectItem>, cols: seq<ColumnInfo>, res: seq<ResultColumn>)
    requires items != [] && Evaluates(items, cols, res)
    requires |ItemPerColumn(items[1..], |cols|)| == |res| - if items[0].Star? then |cols| else 1
    ensures var n := if items[0].Star? then |cols| else 1;
            var per := ItemPerColumn(items, |cols|);
            n <= |res| == |per| && Names(res)[n..] == Names(res[n..]) && (forall i :: 0 <= i < n ==> per[i] == items[0]) &&
            Origins(per, res)[n..] == Origins(ItemPerColumn(items[1..], |cols|), res[n..])
  {
    var n := if items[0].Star? then |cols| else 1;
    FirstItems(items, |cols|);
    assert n <= |res|;
    hide *;
    TailsOf(ItemPerColumn(items, |cols|), res, n);
  }

  lemma FirstItems(items: seq<SelectItem>, n: nat)
    requires items != []
    ensures var m := if items[0].Star? then n else 1;
            var per := ItemPerColumn(items, n);
            m <= |per| && per[m..] == ItemPerColumn(items[1..], n) && forall i :: 0 <= i < m ==> per[i] == items[0]
  {
  }

  lemma TailsOf(per: seq<SelectItem>, res: seq<ResultColumn>, n: nat)
    requires n <= |res| == |per|
    ensures Names(res)[n..] == Names(res[n..]) && Origins(per, res)[n..] == Origins(per[n..], res[n..])
  {
  }

  lemma StarMapped(items: seq<SelectItem>, cols: seq<ColumnInfo>, res: seq<ResultColumn>, per: seq<SelectItem>)
    requires items != [] && items[0].Star? && Evaluates(items, cols, res) && |per| == |res|
    requires |cols| <= |res| && forall i :: 0 <= i < |cols| ==> per[i] == Star
    requires MapColumns(items[1..], Names(res)[|cols|..], cols) == Some(Origins(per, res)[|cols|..])
    ensures MapColumns(items, Names(res), cols) == Some(Origins(per, res))
  {
    hide InTableOrder;
    hide SameName;
    var (ordered, n) := (InTableOrder(cols), |cols|);
    assert |ordered| == n && StarFits(Names(res), ordered);
    assert Origins(per, res)[..n] == AllSome(ordered);
    assert Origins(per, res) == Origins(per, res)[..n] + Origins(per, res)[n..];
  }

  lemma OneMapped(items: seq<SelectItem>, cols: seq<ColumnInfo>, res: seq<ResultColumn>, per: seq<SelectItem>)
    requires items != [] && !items[0].Star? && DistinctNames(cols) && Evaluates(items, cols, res) && |per| == |res|
    requires res != [] && per[0] == items[0]
    requires MapColumns(items[1..], Names(res)[1..], cols) == Some(Origins(per, res)[1..])
    ensures MapColumns(items, Names(res), cols) == Some(Origins(per, res))
  {
    if items[0].Column? { FindIsOrigin(cols, items[0].name, res[0]); }
    hide FindColumn;
    hide ColumnComesFrom;
    hide DistinctNames;
    assert Names(res)[0] == res[0].name;
    assert Origins(per, res) == [Origins(per, res)[0]] + Origins(per, res)[1..];
  }

  /** Provenance: with distinct column names, a result that evaluates the
      select list is mapped, column by column, to where its values come from,
      or to nothing for expressions. */
  lemma {:induction false} MappingIsProvenance(items: seq<SelectItem>, cols: seq<ColumnInfo>, res: seq<ResultColumn>)
    requires DistinctNames(cols) && Evaluates(items, cols, res)
    ensures |ItemPerColumn(items, |cols|)| == |res|
    ensures MapColumns(items, Names(res), cols) == Some(Origins(ItemPerColumn(items, |cols|), res))
    decreases |items|
  {
    if items == [] {
      assert Names(res) == [] && Origins([], res) == [];
    } else {
      var n := if items[0].Star? then |cols| else 1;
      assert n <= |res| && Evaluates(items[1..], cols, res[n..]);
      hide *;
      MappingIsProvenance(items[1..], cols, res[n..]);
      ItemTails(items, cols, res);
      if items[0].Star? {
        StarMapped(items, cols, res, ItemPerColumn(items, |cols|));
      } else {
        OneMapped(items, cols, res, ItemPerColumn(items, |cols|));
      }
    }
  }

  /** A mapped column is where the values come from; an expression, or a name
      the table does not have, is mapped to nothing. */
  lemma {:induction false} MappedIffColumn(items: seq<SelectItem>, cols: seq<ColumnInfo>, res: seq<ResultColumn>, i: nat)
    requires DistinctNames(cols) && Evaluates(items, cols, res) && i < |res|
    ensures |ItemPerColumn(items, |cols|)| == |res| && MapColumns(items, Names(res), cols).Some?
    ensures var out := MapColumns(items, Names(res), cols).value;
            |out| == |res| && (out[i].Some? ==> out[i] == res[i].origin) &&
            (out[i].None? <==> match ItemPerColumn(items, |cols|)[i]
                               case Star => false
                               case Other => true
                               case Column(name) => forall t :: t in cols ==> !SameName(t.name, name))
    decreases |items|
  {
    MappingIsProvenance(items, cols, res);
    hide MapColumns;
    OriginIffColumn(items, cols, res, i);
  }

  lemma {:induction false} OriginIffColumn(items: seq<SelectItem>, cols: seq<ColumnInfo>, res: seq<ResultColumn>, i: nat)
    requires Evaluates(items, cols, res) && i < |res| == |ItemPerColumn(items, |cols|)|
    ensures match ItemPerColumn(items, |cols|)[i]
            case Star => res[i].origin.Some?
            case Other => true
            case Column(name) => res[i].origin.None? <==> forall t :: t in cols ==> !SameName(t.name, name)
    decreases |items|
  {
    hide SameName;
    hide InTableOrder;
    if items != [] {
      var n := if items[0].Star? then |cols| else 1;
      if i >= n {
        assert ItemPerColumn(items, |cols|)[n..] == ItemPerColumn(items[1..], |cols|);
        OriginIffColumn(items[1..], cols, res[n..], i - n);
      }
    }
  }

  /** Whatever the result, a mapped column bears its table column's name. */
  ghost predicate Bears(cols: seq<ColumnInfo>, name: string, t: Option<ColumnInfo>) {
    t.Some? ==> t.value in cols && SameName(t.value.name, name)
  }

  lemma {:induction false} FindBears(cols: seq<ColumnInfo>, name: string, resultName: string)
    ensures Bears(cols, resultName, FindColumn(cols, name, resultName))
  {
    if cols != [] {
      assert cols == [cols[0]] + cols[1..];
      FindBears(cols[1..], name, resultName);
    }
  }

  lemma TableOrderIsFrom(cols: seq<ColumnInfo>)
    ensures forall i :: 0 <= i < |cols| ==> InTableOrder(cols)[i] in cols
  {
    StableSort.SortIsPermutation(ByOrdinal(cols), |cols|);
  }

  lemma {:induction false} MappedColumnsLineUp(items: seq<SelectItem>, names: seq<string>, cols: seq<ColumnInfo>)
    requires MapColumns(items, names, cols).Some?
    ensures var out := MapColumns(items, names, cols).value;
            |out| == |names| && forall i :: 0 <= i < |out| ==> Bears(cols, names[i], out[i])
    decreases |items|
  {
    if items != [] {
      TableOrderIsFrom(cols);
      hide InTableOrder;
      hide FindColumn;
      match items[0]
      case Star =>
        MappedColumnsLineUp(items[1..], names[|cols|..], cols);
      case Column(name) =>
        FindBears(cols, name, names[0]);
        MappedColumnsLineUp(items[1..], names[1..], cols);
      case Other =>
        MappedColumnsLineUp(items[1..], names[1..], cols);
    }
  }

  datatype Refusal = Misaligned | NoPrimaryKey | KeyTwice(name: string) | KeyMissing(name: string)
  datatype Result<+T> = Fine(value: T) | Refused(why: Refusal)

  /** What may be edited: a table column per result column, and where the
      primary key columns are. */
  datatype Editable = Editable(target: seq<Option<ColumnInfo>>, pk: seq<nat>)

  /** Result columns that are the table column called `name`. */
  function Hits(target: seq<Option<ColumnInfo>>, name: string): seq<nat> {
    if target == [] then []
    else
      var n := |target| - 1;
      var front := Hits(target[..n], name);
      if target[n].Some? && target[n].value.name == name then front + [n] else front
  }

  function PrimaryKey(cols: seq<ColumnInfo>): seq<ColumnInfo> {
    if cols == [] then []
    else (if cols[0].primaryKey then [cols[0]] else []) + PrimaryKey(cols[1..])
  }

  /** Each key column must be hit exactly once. */
  function FindKey(target: seq<Option<ColumnInfo>>, keys: seq<ColumnInfo>): Result<seq<nat>> {
    if keys == [] then Fine([])
    else
      var hits := Hits(target, keys[0].name);
      if |hits| > 1 then Refused(KeyTwice(keys[0].name))
      else if hits == [] then Refused(KeyMissing(keys[0].name))
      else
        match FindKey(target, keys[1..])
        case Fine(rest) => Fine([hits[0]] + rest)
        case Refused(why) => Refused(why)
  }

  /** Later copies of a column become read-only. */
  function FirstCopies(target: seq<Option<ColumnInfo>>): (out: seq<Option<ColumnInfo>>)
    ensures |out| == |target|
  {
    if target == [] then []
    else
      var n := |target| - 1;
      var t := target[n];
      FirstCopies(target[..n]) + [if t.Some? && Hits(target[..n], t.value.name) == [] then t else None]
  }

  /** `EditState::new`. */
  function NewEditable(items: seq<SelectItem>, names: seq<string>, cols: seq<ColumnInfo>): Result<Editable> {
    match MapColumns(items, names, cols)
    case None => Refused(Misaligned)
    case Some(target) =>
      if PrimaryKey(cols) == [] then Refused(NoPrimaryKey)
      else
        match FindKey(target, PrimaryKey(cols))
        case Refused(why) => Refused(why)
        case Fine(pk) => Fine(Editable(FirstCopies(target), pk))
  }

  ghost predicate IsHit(target: seq<Option<ColumnInfo>>, name: string, i: nat) {
    i < |target| && target[i].Some? && target[i].value.name == name
  }

  /** The hits are all the places of the column, in order. */
  lemma {:induction false} HitsAre(target: seq<Option<ColumnInfo>>, name: string)
    ensures var hits := Hits(target, name);
            (forall k :: 0 <= k < |hits| ==> IsHit(target, name, hits[k])) &&
            (forall i: nat :: IsHit(target, name, i) ==> i in hits) &&
            (forall a, b :: 0 <= a < b < |hits| ==> hits[a] < hits[b])
  {
    if target != [] {
      var n := |target| - 1;
      HitsAre(target[..n], name);
      var front := Hits(target[..n], name);
      forall i: nat ensures i < n ==> (IsHit(target[..n], name, i) <==> IsHit(target, name, i)) {
      }
      assert forall k :: 0 <= k < |front| ==> IsHit(target[..n], name, front[k]) && front[k] < n;
    }
  }

  /** The key column is found once, and where. */
  ghost predicate FoundOnce(target: seq<Option<ColumnInfo>>, name: string, at: nat) {
    IsHit(target, name, at) && forall i: nat :: IsHit(target, name, i) ==> i == at
  }

  ghost predicate OccursOnce(target: seq<Option<ColumnInfo>>, name: string) {
    exists at: nat :: FoundOnce(target, name, at)
  }

  ghost predicate AllOnce(target: seq<Option<ColumnInfo>>, keys: seq<ColumnInfo>) {
    forall k :: 0 <= k < |keys| ==> OccursOnce(target, keys[k].name)
  }

  lemma AllOnceCons(target: seq<Option<ColumnInfo>>, keys: seq<ColumnInfo>)
    requires keys != []
    ensures AllOnce(target, keys) <==> OccursOnce(target, keys[0].name) && AllOnce(target, keys[1..])
  {
    hide OccursOnce;
    assert forall k :: 0 < k < |keys| ==> keys[k] == keys[1..][k - 1];
  }

  lemma TwoHits(target: seq<Option<ColumnInfo>>, name: string)
    requires |Hits(target, name)| > 1
    ensures !OccursOnce(target, name)
  {
    HitsAre(target, name);
    var hits := Hits(target, name);
    assert IsHit(target, name, hits[0]) && IsHit(target, name, hits[1]) && hits[0] < hits[1];
  }

  lemma OneHit(target: seq<Option<ColumnInfo>>, name: string)
    ensures |Hits(target, name)| == 1 <==> OccursOnce(target, name)
    ensures |Hits(target, name)| == 1 ==> FoundOnce(target, name, Hits(target, name)[0])
  {
    HitsAre(target, name);
    var hits := Hits(target, name);
    if |hits| == 1 {
      assert FoundOnce(target, name, hits[0]);
    }
    if |hits| > 1 {
      TwoHits(target, name);
    }
  }

  /** The key is found exactly when each of its columns occurs once. */
  lemma {:induction false} KeyFoundIff(target: seq<Option<ColumnInfo>>, keys: seq<ColumnInfo>)
    ensures FindKey(target, keys).Fine? <==> AllOnce(target, keys)
    ensures FindKey(target, keys).Fine? ==>
            |FindKey(target, keys).value| == |keys| &&
            forall k :: 0 <= k < |keys| ==> FoundOnce(target, keys[k].name, FindKey(target, keys).value[k])
  {
    if keys != [] {
      OneHit(target, keys[0].name);
      KeyFoundIff(target, keys[1..]);
      AllOnceCons(target, keys);
      hide Hits;
      hide FoundOnce;
      hide OccursOnce;
      hide AllOnce;
    }
  }

  /** An entry survives exactly when no earlier entry is the same column. */
  lemma {:induction false} FirstCopiesKeep(target: seq<Option<ColumnInfo>>, i: nat)
    requires i < |target|
    ensures FirstCopies(target)[i] ==
            if target[i].Some? && Hits(target[..i], target[i].value.name) == [] then target[i] else None
    decreases |target|
  {
    var n := |target| - 1;
    if i < n {
      FirstCopiesKeep(target[..n], i);
      assert target[..n][..i] == target[..i];
    }
  }

  lemma HitsBelow(target: seq<Option<ColumnInfo>>, i: nat, name: string)
    requires i <= |target|
    ensures Hits(target[..i], name) == [] <==> forall j: nat :: j < i ==> !IsHit(target, name, j)
  {
    HitsAre(target[..i], name);
    assert forall j: nat :: j < i ==> (IsHit(target[..i], name, j) <==> IsHit(target, name, j));
    if Hits(target[..i], name) != [] {
      assert IsHit(target[..i], name, Hits(target[..i], name)[0]);
    }
  }

  /** No two cells of a row write the same column, and the key stays there. */
  ghost predicate WellTargeted(e: Editable, keys: seq<ColumnInfo>) {
    (forall i, j :: 0 <= i < j < |e.target| && e.target[i].Some? && e.target[j].Some? ==>
       e.target[i].value.name != e.target[j].value.name) &&
    |e.pk| == |keys| && keys != [] &&
    (forall k :: 0 <= k < |keys| ==> IsHit(e.target, keys[k].name, e.pk[k]))
  }

  /** Editing is possible exactly when the result lines up, there is a
      primary key, and each of its columns is selected once; then no two
      editable cells of a row write the same column. */
  lemma EditableIff(items: seq<SelectItem>, names: seq<string>, cols: seq<ColumnInfo>)
    ensures var target := MapColumns(items, names, cols);
            var keys := PrimaryKey(cols);
            NewEditable(items, names, cols).Fine? <==> target.Some? && keys != [] && AllOnce(target.value, keys)
    ensures NewEditable(items, names, cols).Fine? ==>
              WellTargeted(NewEditable(items, names, cols).value, PrimaryKey(cols))
  {
    hide MapColumns;
    var target := MapColumns(items, names, cols);
    if target.Some? {
      KeyFoundIff(target.value, PrimaryKey(cols));
      if PrimaryKey(cols) != [] {
        CopiesAreWellTargeted(target.value, PrimaryKey(cols));
      }
    }
  }

  lemma CopiesAreWellTargeted(target: seq<Option<ColumnInfo>>, keys: seq<ColumnInfo>)
    requires keys != []
    ensures FindKey(target, keys).Fine? ==>
            WellTargeted(Editable(FirstCopies(target), FindKey(target, keys).value), keys)
  {
    KeyFoundIff(target, keys);
    hide FindKey;
    hide Hits;
    hide FirstCopies;
    var e := FirstCopies(target);
    forall i, j | 0 <= i < j < |e| && e[i].Some? && e[j].Some? ensures e[i].value.name != e[j].value.name {
      FirstCopiesKeep(target, i);
      FirstCopiesKeep(target, j);
      HitsBelow(target, j, e[j].value.name);
      assert e[i].value.name == e[j].value.name ==> IsHit(target, e[j].value.name, i);
    }
    if FindKey(target, keys).Fine? {
      forall k | 0 <= k < |keys| ensures IsHit(e, keys[k].name, FindKey(target, keys).value[k]) {
        var at := FindKey(target, keys).value[k];
        assert FoundOnce(target, keys[k].name, at);
        FirstCopiesKeep(target, at);
        HitsBelow(target, at, keys[k].name);
      }
    }
  }

  /** Where the primary key columns stand among the table's columns. */
  ghost predicate KeyColumnsAt(cols: seq<ColumnInfo>, places: seq<nat>) {
    (forall k :: 0 <= k < |places| ==> places[k] < |cols| && cols[places[k]].primaryKey) &&
    (forall i: nat :: i < |cols| && cols[i].primaryKey ==> i in places) &&
    forall a, b :: 0 <= a < b < |places| ==> places[a] < places[b]
  }

  function PlacesBelow(cols: seq<ColumnInfo>, n: nat): seq<nat>
    requires n <= |cols|
  {
    if n == 0 then [] else PlacesBelow(cols, n - 1) + if cols[n - 1].primaryKey then [n - 1] else []
  }

  lemma {:induction false} PlacesBelowAre(cols: seq<ColumnInfo>, n: nat)
    requires n <= |cols|
    ensures forall x: nat :: x in PlacesBelow(cols, n) <==> x < n && cols[x].primaryKey
    ensures forall a, b :: 0 <= a < b < |PlacesBelow(cols, n)| ==> PlacesBelow(cols, n)[a] < PlacesBelow(cols, n)[b]
  {
    if n > 0 {
      PlacesBelowAre(cols, n - 1);
      var front := PlacesBelow(cols, n - 1);
      assert forall i :: 0 <= i < |front| ==> front[i] in front;
    }
  }

  lemma AllPlaces(cols: seq<ColumnInfo>)
    ensures KeyColumnsAt(cols, PlacesBelow(cols, |cols|))
  {
    PlacesBelowAre(cols, |cols|);
    hide PlacesBelow;
    var places := PlacesBelow(cols, |cols|);
    assert forall k :: 0 <= k < |places| ==> places[k] in places;
  }

  /** The columns at these places. */
  function ColumnsAt(cols: seq<ColumnInfo>, places: seq<nat>): seq<ColumnInfo>
    requires forall k :: 0 <= k < |places| ==> places[k] < |cols|
  {
    seq(|places|, k requires 0 <= k < |places| => cols[places[k]])
  }

  lemma {:induction false} KeySnoc(front: seq<ColumnInfo>, c: ColumnInfo)
    ensures PrimaryKey(front + [c]) == PrimaryKey(front) + if c.primaryKey then [c] else []
  {
    if front == [] {
      assert [] + [c] == [c] && [c][1..] == [];
      assert PrimaryKey([]) == [];
    } else {
      assert (front + [c])[1..] == front[1..] + [c];
      KeySnoc(front[1..], c);
    }
  }

  lemma {:induction false} KeyBelow(cols: seq<ColumnInfo>, n: nat)
    requires n <= |cols|
    ensures forall k :: 0 <= k < |PlacesBelow(cols, n)| ==> PlacesBelow(cols, n)[k] < |cols|
    ensures PrimaryKey(cols[..n]) == ColumnsAt(cols, PlacesBelow(cols, n))
  {
    if n == 0 {
      assert cols[..0] == [];
    } else {
      KeyBelow(cols, n - 1);
      assert cols[..n] == cols[..n - 1] + [cols[n - 1]];
      KeySnoc(cols[..n - 1], cols[n - 1]);
      hide PrimaryKey;
    }
  }

  lemma PrimaryKeyIs(cols: seq<ColumnInfo>) returns (places: seq<nat>)
    ensures KeyColumnsAt(cols, places) && PrimaryKey(cols) == ColumnsAt(cols, places)
  {
    places := PlacesBelow(cols, |cols|);
    AllPlaces(cols);
    KeyBelow(cols, |cols|);
    assert cols[..|cols|] == cols;
    hide PlacesBelow;
    hide PrimaryKey;
  }

  lemma {:induction false} PlacesAreUnique(a: seq<nat>, b: seq<nat>)
    requires forall i, j :: 0 <= i < j < |a| ==> a[i] < a[j]
    requires forall i, j :: 0 <= i < j < |b| ==> b[i] < b[j]
    requires forall x :: x in a <==> x in b
    ensures a == b
    decreases |a|
  {
    if a != [] || b != [] {
      assert |a| > 0 ==> a[0] in b;
      assert |b| > 0 ==> b[0] in a;
      assert a == [a[0]] + a[1..] && b == [b[0]] + b[1..];
      forall x ensures x in a[1..] <==> x in b[1..] {
        assert x in a <==> x in b;
      }
      PlacesAreUnique(a[1..], b[1..]);
    }
  }

  lemma SamePlaces(cols: seq<ColumnInfo>, a: seq<nat>, b: seq<nat>)
    requires KeyColumnsAt(cols, a) && KeyColumnsAt(cols, b)
    ensures a == b
  {
    forall x ensures x in a <==> x in b {
      if x in a {
        var k :| 0 <= k < |a| && a[k] == x;
        assert x < |cols| && cols[x].primaryKey;
      }
      if x in b {
        var k :| 0 <= k < |b| && b[k] == x;
        assert x < |cols| && cols[x].primaryKey;
      }
    }
    PlacesAreUnique(a, b);
  }

  /** Each key column is found once, in the order of the key. */
  ghost predicate KeyFoundAt(cols: seq<ColumnInfo>, target: seq<Option<ColumnInfo>>, places: seq<nat>, pk: seq<nat>)
    requires KeyColumnsAt(cols, places)
  {
    |pk| == |places| && forall k :: 0 <= k < |places| ==> FoundOnce(target, cols[places[k]].name, pk[k])
  }

  /** The whole primary key: editing starts exactly if the result lines up,
      the table has a key column, and every key column is in the result once;
      then the key of the edits are all of them, in the table's order. */
  lemma WholeKeyIsFound(items: seq<SelectItem>, names: seq<string>, cols: seq<ColumnInfo>)
    ensures var target := MapColumns(items, names, cols);
            NewEditable(items, names, cols).Fine? <==>
              target.Some? && (exists c :: c in cols && c.primaryKey) &&
              forall c :: c in cols && c.primaryKey ==> OccursOnce(target.value, c.name)
    ensures NewEditable(items, names, cols).Fine? ==>
              forall places :: KeyColumnsAt(cols, places) ==>
                KeyFoundAt(cols, MapColumns(items, names, cols).value, places, NewEditable(items, names, cols).value.pk)
  {
    var target := MapColumns(items, names, cols);
    var keys := PrimaryKey(cols);
    var places := PrimaryKeyIs(cols);
    EditableIff(items, names, cols);
    KeysAreColumns(cols, places);
    hide PrimaryKey;
    hide MapColumns;
    hide WellTargeted;
    if target.Some? {
      KeyFoundIff(target.value, keys);
      AllOnceIff(target.value, cols);
      hide OccursOnce;
      hide FoundOnce;
      hide FindKey;
      hide KeyColumnsAt;
      hide FirstCopies;
      if NewEditable(items, names, cols).Fine? {
        forall other | KeyColumnsAt(cols, other)
          ensures KeyFoundAt(cols, target.value, other, NewEditable(items, names, cols).value.pk)
        {
          SamePlaces(cols, places, other);
        }
      }
    }
  }

  lemma KeysAreColumns(cols: seq<ColumnInfo>, places: seq<nat>)
    requires KeyColumnsAt(cols, places) && |PrimaryKey(cols)| == |places|
    requires forall k :: 0 <= k < |places| ==> PrimaryKey(cols)[k] == cols[places[k]]
    ensures forall c :: c in PrimaryKey(cols) <==> c in cols && c.primaryKey
    ensures PrimaryKey(cols) != [] <==> exists c :: c in cols && c.primaryKey
  {
    hide PrimaryKey;
    forall c ensures c in PrimaryKey(cols) <==> c in cols && c.primaryKey {
      if c in cols && c.primaryKey {
        var i :| 0 <= i < |cols| && cols[i] == c;
        var k :| 0 <= k < |places| && places[k] == i;
        assert PrimaryKey(cols)[k] == c;
      }
    }
    if PrimaryKey(cols) != [] {
      assert PrimaryKey(cols)[0] in PrimaryKey(cols);
    }
  }

  lemma AllOnceIff(target: seq<Option<ColumnInfo>>, cols: seq<ColumnInfo>)
    requires forall c :: c in PrimaryKey(cols) <==> c in cols && c.primaryKey
    ensures AllOnce(target, PrimaryKey(cols)) <==> forall c :: c in cols && c.primaryKey ==> OccursOnce(target, c.name)
  {
    hide PrimaryKey;
    hide OccursOnce;
    var keys := PrimaryKey(cols);
    if AllOnce(target, keys) {
      forall c | c in cols && c.primaryKey ensures OccursOnce(target, c.name) {
        var k :| 0 <= k < |keys| && keys[k] == c;
      }
    }
    if forall c :: c in cols && c.primaryKey ==> OccursOnce(target, c.name) {
      forall k | 0 <= k < |keys| ensures OccursOnce(target, keys[k].name) {
        assert keys[k] in keys;
      }
    }
  }
}

/** The mapper and the checks of `EditState::new` as written. */
module ColumnMapper {
  import opened Prelude
  import opened Sql
  import opened ColumnSpec

  function Prepend<T>(front: seq<T>, rest: Option<seq<T>>): Option<seq<T>> {
    match rest
    case None => None
    case Some(r) => Some(front + r)
  }

  /** Line a star up with the next result columns. */
  method TakeStar(names: seq<string>, from: nat, ordered: seq<ColumnInfo>) returns (fits: bool)
    requires from <= |names|
    ensures fits == StarFits(names[from..], ordered)
  {
    var k := 0;
    while k < |ordered|
      invariant k <= |ordered| && from + k <= |names|
      invariant forall i :: 0 <= i < k ==> SameName(names[from..][i], ordered[i].name)
    {
      if from + k == |names| { return false; }
      assert names[from..][k] == names[from + k];
      if !SameName(names[from + k], ordered[k].name) { return false; }
      k := k + 1;
    }
    return true;
  }

  lemma MapStep(items: seq<SelectItem>, names: seq<string>, cols: seq<ColumnInfo>, k: nat, r: nat)
    requires k < |items| && r <= |names|
    ensures var now := MapColumns(items[k..], names[r..], cols);
            match items[k]
            case Star =>
              var n := |cols|;
              if !StarFits(names[r..], InTableOrder(cols)) then now == None
              else r + n <= |names| &&
                   now == Prepend(AllSome(InTableOrder(cols)), MapColumns(items[k + 1..], names[r + n..], cols))
            case Column(name) =>
              if r == |names| then now == None
              else now == Prepend([FindColumn(cols, name, names[r])], MapColumns(items[k + 1..], names[r + 1..], cols))
            case Other =>
              if r == |names| then now == None
              else now == Prepend([None], MapColumns(items[k + 1..], names[r + 1..], cols))
  {
    hide InTableOrder;
    hide FindColumn;
    hide SameName;
    assert items[k..][1..] == items[k + 1..];
    if r < |names| {
      assert names[r..][1..] == names[r + 1..];
    }
    if r + |cols| <= |names| {
      assert names[r..][|cols|..] == names[r + |cols|..];
    }
  }

  lemma PrependTwice<T>(a: seq<T>, b: seq<T>, rest: Option<seq<T>>)
    ensures Prepend(a, Prepend(b, rest)) == Prepend(a + b, rest)
  {
    if rest.Some? {
      assert a + (b + rest.value) == a + b + rest.value;
    }
  }

  /** `map_columns`: walk the select list and the result columns together. */
  method Map(items: seq<SelectItem>, names: seq<string>, cols: seq<ColumnInfo>) returns (out: Option<seq<Option<ColumnInfo>>>)
    ensures out == MapColumns(items, names, cols)
  {
    var ordered := InTableOrder(cols);
    var mapped: seq<Option<ColumnInfo>> := [];
    var r: nat := 0;
    var k: nat := 0;
    assert items[0..] == items && names[0..] == names;
    assert Prepend([], MapColumns(items, names, cols)) == MapColumns(items, names, cols) by {
      PrependTwice([], [], MapColumns(items, names, cols));
      PrependNothing(MapColumns(items, names, cols));
    }
    while k < |items|
      invariant k <= |items| && r <= |names|
      invariant MapColumns(items, names, cols) == Prepend(mapped, MapColumns(items[k..], names[r..], cols))
    {
      hide MapColumns;
      hide StarFits;
      MapStep(items, names, cols, k, r);
      match items[k] {
        case Star =>
          var fits := TakeStar(names, r, ordered);
          if !fits { return None; }
          PrependTwice(mapped, AllSome(ordered), MapColumns(items[k + 1..], names[r + |cols|..], cols));
          mapped := mapped + AllSome(ordered);
          r := r + |ordered|;
        case Column(name) =>
          if r == |names| { return None; }
          var t := FindColumn(cols, name, names[r]);
          PrependTwice(mapped, [t], MapColumns(items[k + 1..], names[r + 1..], cols));
          mapped := mapped + [t];
          r := r + 1;
        case Other =>
          if r == |names| { return None; }
          PrependTwice(mapped, [None], MapColumns(items[k + 1..], names[r + 1..], cols));
          mapped := mapped + [None];
          r := r + 1;
      }
      k := k + 1;
    }
    assert items[k..] == [] && mapped + [] == mapped;
    return if r == |names| then Some(mapped) else None;
  }

  lemma PrependNothing<T>(rest: Option<seq<T>>)
    ensures Prepend([], rest) == rest
  {
    if rest.Some? {
      assert [] + rest.value == rest.value;
    }
  }

  /** Make later copies of a column read-only. */
  method Dedupe(target: seq<Option<ColumnInfo>>) returns (out: seq<Option<ColumnInfo>>)
    ensures out == FirstCopies(target)
  {
    out := [];
    var seen: set<string> := {};
    var k := 0;
    while k < |target|
      invariant k <= |target| && out == FirstCopies(target[..k])
      invariant forall name :: name in seen <==> Hits(target[..k], name) != []
    {
      var t := target[k];
      assert target[..k + 1][..k] == target[..k];
      if t.Some? && t.value.name !in seen {
        seen := seen + {t.value.name};
        out := out + [t];
      } else {
        out := out + [None];
      }
      k := k + 1;
    }
    assert target[..k] == target;
  }

  function FoundThen(found: seq<nat>, rest: Result<seq<nat>>): Result<seq<nat>> {
    match rest
    case Fine(more) => Fine(found + more)
    case Refused(why) => Refused(why)
  }

  lemma FoundThenNothing(rest: Result<seq<nat>>)
    ensures FoundThen([], rest) == rest
  {
    if rest.Fine? {
      assert [] + rest.value == rest.value;
    }
  }

  lemma FoundThenTwice(found: seq<nat>, at: nat, rest: Result<seq<nat>>)
    ensures FoundThen(found, FoundThen([at], rest)) == FoundThen(found + [at], rest)
  {
    if rest.Fine? {
      assert found + ([at] + rest.value) == found + [at] + rest.value;
    }
  }

  /** Find every key column in the result, once. */
  method LocateKey(target: seq<Option<ColumnInfo>>, keys: seq<ColumnInfo>) returns (pk: Result<seq<nat>>)
    ensures pk == FindKey(target, keys)
  {
    var found: seq<nat> := [];
    var k := 0;
    assert keys[0..] == keys;
    FoundThenNothing(FindKey(target, keys));
    while k < |keys|
      invariant k <= |keys|
      invariant FindKey(target, keys) == FoundThen(found, FindKey(target, keys[k..]))
    {
      var hits := Hits(target, keys[k].name);
      assert keys[k..][1..] == keys[k + 1..];
      if |hits| > 1 { return Refused(KeyTwice(keys[k].name)); }
      if hits == [] { return Refused(KeyMissing(keys[k].name)); }
      FoundThenTwice(found, hits[0], FindKey(target, keys[k + 1..]));
      found := found + [hits[0]];
      k := k + 1;
    }
    assert keys[k..] == [] && found + [] == found;
    return Fine(found);
  }

  /** `EditState::new`, up to the empty edit buffer. */
  method Prepare(items: seq<SelectItem>, names: seq<string>, cols: seq<ColumnInfo>) returns (e: Result<Editable>)
    ensures e == NewEditable(items, names, cols)
  {
    var target := Map(items, names, cols);
    if target.None? { return Refused(Misaligned); }
    var keys := PrimaryKey(cols);
    if keys == [] { return Refused(NoPrimaryKey); }
    var pk := LocateKey(target.value, keys);
    match pk {
      case Refused(why) => return Refused(why);
      case Fine(at) =>
        var unique := Dedupe(target.value);
        return Fine(Editable(unique, at));
    }
  }
}
