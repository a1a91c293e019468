/** Sorting of a result column: `SortKey::cmp` and the stable sort behind
    `ResultSet::toggle_sort` (crates/sqail-ui/src/results.rs). */
module SortKeys {
  import opened Prelude

  datatype Ordering = Less | Equal | Greater

  /** A cell prepared for sorting. A float is kept as its place in the
      `f64::total_cmp` order; text that parses as a number carries that
      number's place beside the text itself. */
  datatype SortKey =
    | Null
    | Bool(b: bool)
    | Int(i: int)
    | Float(f: int)
    | Text(num: Option<int>, text: string)
  {
    predicate Numeric() { Text? && num.Some? }
    predicate Plain() { Text? && num.None? }
  }

  function Reverse(o: Ordering): Ordering {
    match o case Less => Greater case Equal => Equal case Greater => Less
  }

  function CompareInt(a: int, b: int): Ordering {
    if a < b then Less else if a == b then Equal else Greater
  }

  function CompareBool(a: bool, b: bool): Ordering {
    if a == b then Equal else if b then Less else Greater
  }

  /** `str::cmp`: lexicographic. */
  function CompareText(a: string, b: string): Ordering {
    if a == "" then (if b == "" then Equal else Less)
    else if b == "" then Greater
    else if a[0] != b[0] then (if a[0] < b[0] then Less else Greater)
    else CompareText(a[1..], b[1..])
  }

  lemma {:induction false} CompareTextSwaps(a: string, b: string)
    ensures CompareText(b, a) == Reverse(CompareText(a, b))
    ensures CompareText(a, b) == Equal <==> a == b
  {
    if a != "" && b != "" {
      CompareTextSwaps(a[1..], b[1..]);
      assert a == [a[0]] + a[1..] && b == [b[0]] + b[1..];
    }
  }

  lemma {:induction false} CompareTextTransitive(a: string, b: string, c: string)
    requires CompareText(a, b) != Greater && CompareText(b, c) != Greater
    ensures CompareText(a, c) != Greater
  {
    if a != "" && b != "" && c != "" && a[0] == b[0] && b[0] == c[0] {
      CompareTextTransitive(a[1..], b[1..], c[1..]);
    }
  }

  function Rank(k: SortKey): int {
    match k
    case Null => 0
    case Bool(_) => 1
    case Int(_) => 2
    case Float(_) => 2
    case Text(_, _) => 3
  }

  /** The comparator, arm by arm. `round` is the conversion of an integer to
      the nearest float. */
  function Compare(round: int -> int, a: SortKey, b: SortKey): Ordering {
    match (a, b)
    case (Null, Null) => Equal
    case (Null, _) => Less
    case (_, Null) => Greater
    case (Bool(x), Bool(y)) => CompareBool(x, y)
    case (Int(x), Int(y)) => CompareInt(x, y)
    case (Float(x), Float(y)) => CompareInt(x, y)
    case (Int(x), Float(y)) => CompareInt(round(x), y)
    case (Float(x), Int(y)) => CompareInt(x, round(y))
    case (Text(x, s), Text(y, t)) =>
      if x.Some? && y.Some? then CompareInt(x.value, y.value) else CompareText(s, t)
    case (_, _) => CompareInt(Rank(a), Rank(b))
  }

  /** Rounding an integer to a float never changes the order strictly. */
  ghost predicate Monotone(round: int -> int) {
    forall x, y {:trigger round(x), round(y)} :: x <= y ==> round(x) <= round(y)
  }

  /** Whether text is a number depends on the text alone. */
  ghost predicate Parsed(keys: seq<SortKey>) {
    forall i, j | 0 <= i < |keys| && 0 <= j < |keys| && keys[i].Text? && keys[j].Text? ::
      keys[i].text == keys[j].text ==> keys[i].num == keys[j].num
  }

  ghost predicate Le(round: int -> int, a: SortKey, b: SortKey) {
    Compare(round, a, b) != Greater
  }

  /** What a sort needs of the comparator on these keys. */
  ghost predicate TotalPreorder(round: int -> int, keys: seq<SortKey>) {
    (forall i :: 0 <= i < |keys| ==> Compare(round, keys[i], keys[i]) == Equal) &&
    (forall i, j :: 0 <= i < |keys| && 0 <= j < |keys| ==>
       Compare(round, keys[j], keys[i]) == Reverse(Compare(round, keys[i], keys[j]))) &&
    (forall i, j, k | 0 <= i < |keys| && 0 <= j < |keys| && 0 <= k < |keys| ::
       Le(round, keys[i], keys[j]) && Le(round, keys[j], keys[k]) ==> Le(round, keys[i], keys[k]))
  }

  /** Two integers that round to the same float, and that float. */
  predicate RoundingClash(round: int -> int, a: SortKey, b: SortKey, c: SortKey) {
    a.Int? && b.Int? && c.Float? && a.i != b.i && round(a.i) == c.f && round(b.i) == c.f
  }

  /** Two numbers written as text and a word that falls between them in
      text order, where the text order is not the number order. */
  predicate TextClash(a: SortKey, b: SortKey, c: SortKey) {
    a.Numeric() && b.Numeric() && c.Plain() && a.num.value <= b.num.value &&
    CompareText(b.text, c.text) == Less && CompareText(c.text, a.text) == Less
  }

  ghost predicate Clash(round: int -> int, keys: seq<SortKey>) {
    exists i, j, k :: 0 <= i < |keys| && 0 <= j < |keys| && 0 <= k < |keys| &&
      (RoundingClash(round, keys[i], keys[j], keys[k]) || TextClash(keys[i], keys[j], keys[k]))
  }

  lemma CompareSwaps(round: int -> int, a: SortKey, b: SortKey)
    ensures Compare(round, b, a) == Reverse(Compare(round, a, b))
    ensures a == b ==> Compare(round, a, b) == Equal
  {
    if a.Text? && b.Text? {
      CompareTextSwaps(a.text, b.text);
    }
  }

  /** A clash breaks transitivity. */
  lemma ClashBreaks(round: int -> int, a: SortKey, b: SortKey, c: SortKey)
    requires RoundingClash(round, a, b, c) || TextClash(a, b, c)
    ensures (Le(round, a, c) && Le(round, c, b) && !Le(round, a, b)) ||
            (Le(round, b, c) && Le(round, c, a) && !Le(round, b, a)) ||
            (Le(round, a, b) && Le(round, b, c) && !Le(round, a, c))
  {
    if TextClash(a, b, c) {
      CompareTextSwaps(c.text, a.text);
    }
  }

  lemma TextTransitive(a: SortKey, b: SortKey, c: SortKey, round: int -> int)
    requires a.Text? && b.Text? && c.Text?
    requires a.text == b.text ==> a.num == b.num
    requires b.text == c.text ==> b.num == c.num
    requires a.text == c.text ==> a.num == c.num
    requires !TextClash(a, b, c) && !TextClash(c, a, b) && !TextClash(b, c, a)
    requires Le(round, a, b) && Le(round, b, c)
    ensures Le(round, a, c)
  {
    CompareTextSwaps(a.text, b.text);
    CompareTextSwaps(b.text, c.text);
    CompareTextSwaps(a.text, c.text);
    hide CompareText;
    if CompareText(a.text, b.text) != Greater && CompareText(b.text, c.text) != Greater {
      CompareTextTransitive(a.text, b.text, c.text);
    }
  }

  /** No clash among three keys, in whatever roles. */
  predicate ClashFree(round: int -> int, a: SortKey, b: SortKey, c: SortKey) {
    !TextClash(a, b, c) && !TextClash(c, a, b) && !TextClash(b, c, a) &&
    !RoundingClash(round, a, b, c) && !RoundingClash(round, a, c, b) && !RoundingClash(round, b, c, a)
  }

  predicate SameText(a: SortKey, b: SortKey) {
    a.Text? && b.Text? && a.text == b.text ==> a.num == b.num
  }

  /** Only a clash breaks transitivity. */
  lemma TransitiveWithoutClash(round: int -> int, a: SortKey, b: SortKey, c: SortKey)
    requires Monotone(round) && ClashFree(round, a, b, c)
    requires SameText(a, b) && SameText(b, c) && SameText(a, c)
    requires Le(round, a, b) && Le(round, b, c)
    ensures Le(round, a, c)
  {
    if a.Text? && b.Text? && c.Text? {
      TextTransitive(a, b, c, round);
    } else {
      hide CompareText;
    }
  }

  /** When a column's comparator is an order, exactly: no float in it is the
      rounding of two different integers, and no word falls between two
      numeric texts against their numeric order. */
  lemma TotalPreorderIffNoClash(round: int -> int, keys: seq<SortKey>)
    requires Monotone(round) && Parsed(keys)
    ensures TotalPreorder(round, keys) <==> !Clash(round, keys)
  {
    hide Compare;
    if Clash(round, keys) {
      var i, j, k :| 0 <= i < |keys| && 0 <= j < |keys| && 0 <= k < |keys| &&
        (RoundingClash(round, keys[i], keys[j], keys[k]) || TextClash(keys[i], keys[j], keys[k]));
      ClashBreaks(round, keys[i], keys[j], keys[k]);
    } else {
      forall i, j | 0 <= i < |keys| && 0 <= j < |keys|
        ensures Compare(round, keys[j], keys[i]) == Reverse(Compare(round, keys[i], keys[j]))
      {
        CompareSwaps(round, keys[i], keys[j]);
      }
      forall i | 0 <= i < |keys| ensures Compare(round, keys[i], keys[i]) == Equal {
        CompareSwaps(round, keys[i], keys[i]);
      }
      forall i, j, k | 0 <= i < |keys| && 0 <= j < |keys| && 0 <= k < |keys| &&
          Le(round, keys[i], keys[j]) && Le(round, keys[j], keys[k])
        ensures Le(round, keys[i], keys[k])
      {
        NoClashAmong(round, keys, i, j, k);
        TransitiveWithoutClash(round, keys[i], keys[j], keys[k]);
      }
    }
  }

  lemma NoClashAmong(round: int -> int, keys: seq<SortKey>, i: nat, j: nat, k: nat)
    requires i < |keys| && j < |keys| && k < |keys| && Parsed(keys) && !Clash(round, keys)
    ensures ClashFree(round, keys[i], keys[j], keys[k])
    ensures SameText(keys[i], keys[j]) && SameText(keys[j], keys[k]) && SameText(keys[i], keys[k])
  {
    hide RoundingClash;
    hide TextClash;
  }

  /** All non-null cells of one kind. */
  ghost predicate OneKind(keys: seq<SortKey>) {
    (forall i :: 0 <= i < |keys| ==> keys[i].Null? || keys[i].Bool?) ||
    (forall i :: 0 <= i < |keys| ==> keys[i].Null? || keys[i].Int?) ||
    (forall i :: 0 <= i < |keys| ==> keys[i].Null? || keys[i].Float?) ||
    (forall i :: 0 <= i < |keys| ==> keys[i].Null? || keys[i].Numeric()) ||
    (forall i :: 0 <= i < |keys| ==> keys[i].Null? || keys[i].Plain())
  }

  /** A column of one kind is ordered, NULL before everything else. */
  lemma OneKindIsOrdered(round: int -> int, keys: seq<SortKey>)
    requires Monotone(round) && Parsed(keys) && OneKind(keys)
    ensures TotalPreorder(round, keys)
    ensures forall i, j :: 0 <= i < |keys| && 0 <= j < |keys| && keys[i].Null? && !keys[j].Null? ==>
              Compare(round, keys[i], keys[j]) == Less
  {
    assert !Clash(round, keys) by {
      hide CompareText;
    }
    TotalPreorderIffNoClash(round, keys);
  }

  /** "9" < "10" as numbers, "10" < "1a" < "9" as text: a cycle. */
  lemma MixedTextIsNotOrdered(round: int -> int)
    ensures !TotalPreorder(round, [Text(Some(9), "9"), Text(Some(10), "10"), Text(None, "1a")])
  {
    var keys := [Text(Some(9), "9"), Text(Some(10), "10"), Text(None, "1a")];
    assert CompareText("0", "a") == Less;
    assert "10"[1..] == "0" && "1a"[1..] == "a";
    assert TextClash(keys[0], keys[1], keys[2]);
    ClashBreaks(round, keys[0], keys[1], keys[2]);
  }
}

/** The stable sort of Rust's `sort_by`, as an insertion sort on positions.
    Any other stable sort gives the same result (`StableSortIsUnique`). */
module StableSort {
  import opened SortKeys

  /** 0, 1, .., n - 1. */
  function Positions(n: nat): seq<nat> {
    if n == 0 then [] else Positions(n - 1) + [n - 1]
  }

  /** Put `x` after everything that does not compare greater. */
  function Insert(cmp: (nat, nat) -> Ordering, sorted: seq<nat>, x: nat): seq<nat> {
    if sorted == [] then [x]
    else
      var last := sorted[|sorted| - 1];
      if cmp(last, x) != Greater then sorted + [x]
      else Insert(cmp, sorted[..|sorted| - 1], x) + [last]
  }

  /** The positions below `n` in stable order. */
  function Sort(cmp: (nat, nat) -> Ordering, n: nat): seq<nat> {
    if n == 0 then [] else Insert(cmp, Sort(cmp, n - 1), n - 1)
  }

  /** The comparator is a total preorder on the positions below `n`. */
  ghost predicate Preorder(cmp: (nat, nat) -> Ordering, n: nat) {
    (forall i: nat, j: nat | i < n && j < n :: cmp(j, i) == Reverse(cmp(i, j))) &&
    (forall i: nat, j: nat, k: nat | i < n && j < n && k < n ::
       cmp(i, j) != Greater && cmp(j, k) != Greater ==> cmp(i, k) != Greater)
  }

  /** `a` belongs before `b`: smaller, or equal and arrived earlier. */
  ghost predicate Before(cmp: (nat, nat) -> Ordering, a: nat, b: nat) {
    cmp(a, b) == Less || (cmp(a, b) == Equal && a < b)
  }

  ghost predicate Ordered(cmp: (nat, nat) -> Ordering, order: seq<nat>) {
    forall i, j :: 0 <= i < j < |order| ==> Before(cmp, order[i], order[j])
  }

  ghost predicate Below(order: seq<nat>, n: nat) {
    forall i :: 0 <= i < |order| ==> order[i] < n
  }

  /** A permutation of the positions, sorted, equal ones in arrival order. */
  ghost predicate IsStableSort(cmp: (nat, nat) -> Ordering, n: nat, order: seq<nat>) {
    multiset(order) == multiset(Positions(n)) && Below(order, n) && Ordered(cmp, order)
  }

  lemma {:induction false} InsertIsPermutation(cmp: (nat, nat) -> Ordering, sorted: seq<nat>, x: nat)
    ensures multiset(Insert(cmp, sorted, x)) == multiset(sorted) + multiset{x}
    ensures |Insert(cmp, sorted, x)| == |sorted| + 1
    decreases |sorted|
  {
    if sorted != [] {
      var front := sorted[..|sorted| - 1];
      InsertIsPermutation(cmp, front, x);
      assert sorted == front + [sorted[|sorted| - 1]];
    }
  }

  lemma {:induction false} InsertBelow(cmp: (nat, nat) -> Ordering, sorted: seq<nat>, x: nat, n: nat)
    requires Below(sorted, n) && x < n
    ensures Below(Insert(cmp, sorted, x), n)
    decreases |sorted|
  {
    if sorted != [] {
      InsertBelow(cmp, sorted[..|sorted| - 1], x, n);
    }
  }

  lemma BeforeTransitive(cmp: (nat, nat) -> Ordering, n: nat, a: nat, b: nat, c: nat)
    requires Preorder(cmp, n) && a < n && b < n && c < n
    requires Before(cmp, a, b) && Before(cmp, b, c)
    ensures Before(cmp, a, c)
  {
    assert cmp(a, c) != Greater;
    if cmp(a, c) == Equal {
      assert cmp(c, a) == Equal;
      assert cmp(b, a) != Greater && cmp(c, b) != Greater;
    }
  }

  lemma AppendOrdered(cmp: (nat, nat) -> Ordering, order: seq<nat>, x: nat)
    requires Ordered(cmp, order) && forall i :: 0 <= i < |order| ==> Before(cmp, order[i], x)
    ensures Ordered(cmp, order + [x])
  {
  }

  lemma {:induction false} InsertOrdered(cmp: (nat, nat) -> Ordering, sorted: seq<nat>, x: nat)
    requires Preorder(cmp, x + 1) && Below(sorted, x) && Ordered(cmp, sorted)
    ensures Ordered(cmp, Insert(cmp, sorted, x))
    ensures forall y :: y in Insert(cmp, sorted, x) ==> y in sorted || y == x
    decreases |sorted|
  {
    if sorted != [] {
      var front, last := sorted[..|sorted| - 1], sorted[|sorted| - 1];
      if cmp(last, x) != Greater {
        forall i | 0 <= i < |sorted| ensures Before(cmp, sorted[i], x) {
          if i < |front| {
            BeforeTransitive(cmp, x + 1, sorted[i], last, x);
          }
        }
        AppendOrdered(cmp, sorted, x);
      } else {
        InsertOrdered(cmp, front, x);
        var order := Insert(cmp, front, x);
        forall i | 0 <= i < |order| ensures Before(cmp, order[i], last) {
          assert order[i] in front || order[i] == x;
          assert cmp(x, last) == Less;
        }
        AppendOrdered(cmp, order, last);
      }
    }
  }

  lemma PreorderShrinks(cmp: (nat, nat) -> Ordering, m: nat, n: nat)
    requires m <= n && Preorder(cmp, n)
    ensures Preorder(cmp, m)
  {
  }

  /** On a total preorder the sort is a stable sort. */
  lemma {:induction false} SortIsStableSort(cmp: (nat, nat) -> Ordering, n: nat)
    requires Preorder(cmp, n)
    ensures IsStableSort(cmp, n, Sort(cmp, n))
    ensures |Sort(cmp, n)| == n
  {
    SortIsPermutation(cmp, n);
    SortIsOrdered(cmp, n);
  }

  lemma {:induction false} SortIsOrdered(cmp: (nat, nat) -> Ordering, n: nat)
    requires Preorder(cmp, n)
    ensures Ordered(cmp, Sort(cmp, n))
  {
    hide Preorder;
    hide Ordered;
    hide Insert;
    hide Below;
    if n == 0 {
      EmptyIsOrdered(cmp);
    } else {
      PreorderShrinks(cmp, n - 1, n);
      SortIsOrdered(cmp, n - 1);
      SortIsPermutation(cmp, n - 1);
      InsertOrdered(cmp, Sort(cmp, n - 1), n - 1);
    }
  }

  lemma EmptyIsOrdered(cmp: (nat, nat) -> Ordering)
    ensures Ordered(cmp, [])
  {
  }

  /** Whatever the comparator does, the result has one entry per position. */
  lemma {:induction false} SortIsPermutation(cmp: (nat, nat) -> Ordering, n: nat)
    ensures multiset(Sort(cmp, n)) == multiset(Positions(n)) && |Sort(cmp, n)| == n && Below(Sort(cmp, n), n)
  {
    if n > 0 {
      SortIsPermutation(cmp, n - 1);
      InsertIsPermutation(cmp, Sort(cmp, n - 1), n - 1);
      InsertBelow(cmp, Sort(cmp, n - 1), n - 1, n);
    }
  }

  lemma {:induction false} OrderedIsUnique(cmp: (nat, nat) -> Ordering, n: nat, a: seq<nat>, b: seq<nat>)
    requires Preorder(cmp, n) && Below(a, n) && Below(b, n) && Ordered(cmp, a) && Ordered(cmp, b)
    requires multiset(a) == multiset(b)
    ensures a == b
    decreases |a|
  {
    hide Preorder;
    hide Ordered;
    hide Below;
    if a == [] {
      assert |multiset(b)| == 0;
    } else {
      assert a[0] in multiset(a) && |multiset(b)| == |b|;
      assert b[0] in multiset(b);
      SameFirst(cmp, n, a, b);
      TailOrdered(cmp, n, a);
      TailOrdered(cmp, n, b);
      assert a == [a[0]] + a[1..] && b == [b[0]] + b[1..];
      OrderedIsUnique(cmp, n, a[1..], b[1..]);
    }
  }

  lemma TailOrdered(cmp: (nat, nat) -> Ordering, n: nat, a: seq<nat>)
    requires a != [] && Below(a, n) && Ordered(cmp, a)
    ensures Below(a[1..], n) && Ordered(cmp, a[1..])
    ensures multiset(a[1..]) == multiset(a) - multiset{a[0]}
  {
    assert a == [a[0]] + a[1..];
  }

  lemma SameFirst(cmp: (nat, nat) -> Ordering, n: nat, a: seq<nat>, b: seq<nat>)
    requires Preorder(cmp, n) && Below(a, n) && Below(b, n) && Ordered(cmp, a) && Ordered(cmp, b)
    requires a != [] && b != [] && b[0] in a && a[0] in b
    ensures a[0] == b[0]
  {
  }

  /** There is only one stable sort, so the algorithm does not matter. */
  lemma StableSortIsUnique(cmp: (nat, nat) -> Ordering, n: nat, order: seq<nat>)
    requires Preorder(cmp, n) && IsStableSort(cmp, n, order)
    ensures order == Sort(cmp, n)
  {
    SortIsStableSort(cmp, n);
    OrderedIsUnique(cmp, n, order, Sort(cmp, n));
  }

  /** The comparator `toggle_sort` sorts by: row keys, turned round when
      descending. */
  function RowOrder(round: int -> int, keys: seq<SortKey>, ascending: bool): (nat, nat) -> Ordering {
    (a: nat, b: nat) =>
      if a < |keys| && b < |keys| then
        var o := Compare(round, keys[a], keys[b]);
        if ascending then o else Reverse(o)
      else Equal
  }

  /** On a column without clashes the sorted view is the stable sorted
      permutation of the rows, in both directions. */
  lemma SortedViewIsStable(round: int -> int, keys: seq<SortKey>, ascending: bool)
    requires Monotone(round) && Parsed(keys) && !Clash(round, keys)
    ensures IsStableSort(RowOrder(round, keys, ascending), |keys|, Sort(RowOrder(round, keys, ascending), |keys|))
  {
    TotalPreorderIffNoClash(round, keys);
    hide Compare;
    var cmp := RowOrder(round, keys, ascending);
    forall i: nat, j: nat, k: nat | i < |keys| && j < |keys| && k < |keys| &&
        cmp(i, j) != Greater && cmp(j, k) != Greater
      ensures cmp(i, k) != Greater
    {
      assert Le(round, keys[i], keys[j]) && Le(round, keys[j], keys[k]) ==> Le(round, keys[i], keys[k]);
      assert Le(round, keys[k], keys[j]) && Le(round, keys[j], keys[i]) ==> Le(round, keys[k], keys[i]);
      assert Compare(round, keys[k], keys[i]) == Reverse(Compare(round, keys[i], keys[k]));
      assert Compare(round, keys[j], keys[i]) == Reverse(Compare(round, keys[i], keys[j]));
      assert Compare(round, keys[k], keys[j]) == Reverse(Compare(round, keys[j], keys[k]));
    }
    SortIsStableSort(cmp, |keys|);
  }
}
