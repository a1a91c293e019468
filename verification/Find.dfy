/** Plain-text search: crates/sqail-ui/src/find.rs. Positions in the code are
    byte offsets into UTF-8 text; the theory works on character indices and
    `Offset` carries every result over to bytes. */
module FindSpec {
  /** Lower-casing of one character, and its UTF-8 length. */
  datatype Chars = Chars(lower: char -> string, width: char -> nat)

  ghost predicate Utf8(cs: Chars) {
    forall c {:trigger cs.width(c)} :: 1 <= cs.width(c) <= 4
  }

  /** A search: the text, what to look for, and how characters compare. */
  datatype Search = Search(cs: Chars, text: string, query: string, matchCase: bool)

  /** Equal characters, or (unless case matters) equal once lower-cased. */
  predicate Same(s: Search, c: char, q: char) {
    c == q || (!s.matchCase && s.cs.lower(c) == s.cs.lower(q))
  }

  /** The query matches at character `i`. */
  predicate Hit(s: Search, i: nat) {
    i + |s.query| <= |s.text| &&
    forall k :: 0 <= k < |s.query| ==> Same(s, s.text[i + k], s.query[k])
  }

  /** Where the non-overlapping matches at or after `i` start, leftmost first. */
  function Greedy(s: Search, i: nat): seq<nat>
    requires s.query != ""
    decreases |s.text| - i
  {
    if i >= |s.text| then []
    else if Hit(s, i) then [i] + Greedy(s, i + |s.query|)
    else Greedy(s, i + 1)
  }

  /** All matches; an empty query matches nothing. */
  function All(s: Search): seq<nat> {
    if s.query == "" then [] else Greedy(s, 0)
  }

  /** Ordered and not overlapping, for matches `n` characters long. */
  ghost predicate Apart(starts: seq<nat>, n: nat) {
    forall a, b :: 0 <= a < b < |starts| ==> starts[a] + n <= starts[b]
  }

  ghost predicate AllHits(s: Search, i: nat, starts: seq<nat>) {
    forall k :: 0 <= k < |starts| ==> i <= starts[k] && Hit(s, starts[k])
  }

  /** Some listed match contains character `j`. */
  ghost predicate Covers(starts: seq<nat>, n: nat, j: nat) {
    exists k :: 0 <= k < |starts| && starts[k] <= j < starts[k] + n
  }

  /** No match starts outside the listed ones. */
  ghost predicate NoGapHit(s: Search, i: nat, starts: seq<nat>) {
    forall j: nat :: i <= j && Hit(s, j) ==> Covers(starts, |s.query|, j)
  }

  /** What "every non-overlapping match, in order" means. */
  ghost predicate LeftmostGreedy(s: Search, i: nat, starts: seq<nat>) {
    AllHits(s, i, starts) && Apart(starts, |s.query|) && NoGapHit(s, i, starts)
  }

  lemma CoversCons(x: nat, rest: seq<nat>, n: nat, j: nat)
    requires Covers(rest, n, j) || x <= j < x + n
    ensures Covers([x] + rest, n, j)
  {
    var starts := [x] + rest;
    if x <= j < x + n {
      assert starts[0] == x;
    } else {
      var k :| 0 <= k < |rest| && rest[k] <= j < rest[k] + n;
      assert starts[k + 1] == rest[k];
    }
  }

  lemma CoversTail(starts: seq<nat>, n: nat, j: nat)
    requires starts != [] && Covers(starts, n, j) && starts[0] + n <= j
    ensures Covers(starts[1..], n, j)
  {
    var k :| 0 <= k < |starts| && starts[k] <= j < starts[k] + n;
    assert starts[1..][k - 1] == starts[k];
  }

  lemma ApartCons(x: nat, rest: seq<nat>, n: nat)
    requires Apart(rest, n) && forall k :: 0 <= k < |rest| ==> x + n <= rest[k]
    ensures Apart([x] + rest, n)
  {
  }

  lemma PrependMatch(s: Search, i: nat, rest: seq<nat>)
    requires s.query != "" && Hit(s, i) && LeftmostGreedy(s, i + |s.query|, rest)
    ensures LeftmostGreedy(s, i, [i] + rest)
  {
    hide Hit;
    hide Covers;
    hide Apart;
    ApartCons(i, rest, |s.query|);
    forall j: nat | i <= j && Hit(s, j) ensures Covers([i] + rest, |s.query|, j) {
      CoversCons(i, rest, |s.query|, j);
    }
  }

  lemma {:induction false} GreedyIsLeftmostGreedy(s: Search, i: nat)
    requires s.query != ""
    ensures LeftmostGreedy(s, i, Greedy(s, i))
    decreases |s.text| - i
  {
    if i >= |s.text| {
    } else if Hit(s, i) {
      GreedyIsLeftmostGreedy(s, i + |s.query|);
      PrependMatch(s, i, Greedy(s, i + |s.query|));
    } else {
      hide Hit;
      GreedyIsLeftmostGreedy(s, i + 1);
    }
  }

  lemma FirstIsLeast(s: Search, i: nat, a: seq<nat>, b: seq<nat>)
    requires LeftmostGreedy(s, i, a) && LeftmostGreedy(s, i, b) && a != []
    ensures b != [] && b[0] <= a[0]
  {
    hide Hit;
    assert Hit(s, a[0]);
    assert Covers(b, |s.query|, a[0]);
  }

  lemma TailIsLeftmostGreedy(s: Search, i: nat, a: seq<nat>)
    requires s.query != "" && a != [] && LeftmostGreedy(s, i, a)
    ensures LeftmostGreedy(s, a[0] + |s.query|, a[1..])
  {
    hide Hit;
    hide Covers;
    var n := |s.query|;
    assert AllHits(s, a[0] + n, a[1..]);
    assert Apart(a[1..], n);
    forall j: nat | a[0] + n <= j && Hit(s, j) ensures Covers(a[1..], n, j) {
      assert i <= a[0];
      CoversTail(a, n, j);
    }
  }

  /** ... and that meaning pins the list down. */
  lemma {:induction false} LeftmostGreedyIsUnique(s: Search, i: nat, a: seq<nat>, b: seq<nat>)
    requires s.query != "" && LeftmostGreedy(s, i, a) && LeftmostGreedy(s, i, b)
    ensures a == b
    decreases |a|
  {
    hide LeftmostGreedy;
    if a != [] {
      FirstIsLeast(s, i, a, b);
      FirstIsLeast(s, i, b, a);
      TailIsLeftmostGreedy(s, i, a);
      TailIsLeftmostGreedy(s, i, b);
      LeftmostGreedyIsUnique(s, a[0] + |s.query|, a[1..], b[1..]);
      assert a == [a[0]] + a[1..] && b == [b[0]] + b[1..];
    } else if b != [] {
      FirstIsLeast(s, i, b, a);
    }
  }

  /** Byte offset of character `i`. */
  function Offset(cs: Chars, text: string, i: nat): nat
    requires i <= |text|
  {
    if i == 0 then 0 else Offset(cs, text, i - 1) + cs.width(text[i - 1])
  }

  lemma {:induction false} OffsetIncreases(cs: Chars, text: string, i: nat, j: nat)
    requires Utf8(cs) && i < j <= |text|
    ensures Offset(cs, text, i) < Offset(cs, text, j)
    decreases j
  {
    assert 1 <= cs.width(text[j - 1]);
    if i < j - 1 {
      OffsetIncreases(cs, text, i, j - 1);
    }
  }

  /** Offsets grow with the index, so a boundary belongs to one index. */
  lemma OffsetOrder(cs: Chars, text: string, i: nat, j: nat)
    requires Utf8(cs) && i <= |text| && j <= |text|
    ensures i < j <==> Offset(cs, text, i) < Offset(cs, text, j)
  {
    if i < j {
      OffsetIncreases(cs, text, i, j);
    } else if j < i {
      OffsetIncreases(cs, text, j, i);
    }
  }

  /** A byte range. */
  datatype Range = Range(start: nat, end: nat)

  /** The bytes of the match starting at character `i`. */
  function BytesOf(cs: Chars, text: string, i: nat, n: nat): Range
    requires i + n <= |text|
  {
    Range(Offset(cs, text, i), Offset(cs, text, i + n))
  }

  /** Matches lie inside the text, after `from`, without overlap. */
  ghost predicate Fit(text: string, from: nat, n: nat, starts: seq<nat>) {
    from <= |text| && Apart(starts, n) &&
    forall k :: 0 <= k < |starts| ==> from <= starts[k] && starts[k] + n <= |text|
  }

  lemma GreedyFits(s: Search, i: nat)
    requires s.query != "" && i <= |s.text|
    ensures Fit(s.text, i, |s.query|, Greedy(s, i))
  {
    GreedyIsLeftmostGreedy(s, i);
  }

  /** The text from `from` on with every match replaced. */
  ghost function Rebuilt(text: string, from: nat, n: nat, starts: seq<nat>, with: string): string
    requires Fit(text, from, n, starts)
    decreases |starts|
  {
    if starts == [] then text[from..]
    else text[from..starts[0]] + with + Rebuilt(text, starts[0] + n, n, starts[1..], with)
  }

  /** Each replacement changes the length by the same amount. */
  lemma {:induction false} RebuiltLength(text: string, from: nat, n: nat, starts: seq<nat>, with: string)
    requires Fit(text, from, n, starts)
    ensures |Rebuilt(text, from, n, starts, with)| == |text| - from + |starts| * (|with| - n)
    decreases |starts|
  {
    if starts != [] {
      RebuiltLength(text, starts[0] + n, n, starts[1..], with);
      var d := |with| - n;
      assert |starts| * d == (|starts| - 1) * d + d;
    }
  }

  lemma ReplaceFirst(text: string, from: nat, starts: seq<nat>, with: string)
    requires Fit(text, from, |with|, starts) && starts != []
    requires text[starts[0]..starts[0] + |with|] == with
    requires Rebuilt(text, starts[0] + |with|, |with|, starts[1..], with) == text[starts[0] + |with|..]
    ensures Rebuilt(text, from, |with|, starts, with) == text[from..]
  {
    ThreeParts(text, from, starts[0], starts[0] + |with|);
  }

  lemma ThreeParts(text: string, a: nat, b: nat, c: nat)
    requires a <= b <= c <= |text|
    ensures text[a..] == text[a..b] + text[b..c] + text[c..]
  {
  }

  lemma FitTail(text: string, from: nat, n: nat, starts: seq<nat>)
    requires Fit(text, from, n, starts) && starts != []
    ensures Fit(text, starts[0] + n, n, starts[1..])
  {
  }

  /** Replacing matches by what they already are changes nothing. */
  lemma {:induction false} RebuiltIdentity(text: string, from: nat, starts: seq<nat>, with: string)
    requires Fit(text, from, |with|, starts)
    requires forall k :: 0 <= k < |starts| ==> text[starts[k]..starts[k] + |with|] == with
    ensures Rebuilt(text, from, |with|, starts, with) == text[from..]
    decreases |starts|
  {
    hide Fit;
    if starts != [] {
      FitTail(text, from, |with|, starts);
      RebuiltIdentity(text, starts[0] + |with|, starts[1..], with);
      ReplaceFirst(text, from, starts, with);
    }
  }
}

module Find {
  import opened Prelude
  import opened FindSpec

  /** The character starting at byte `at`, if `at` is a character boundary:
      what slicing a Rust string at a byte offset needs. */
  function CharIndex(cs: Chars, text: string, i: nat, at: nat): (r: Option<nat>)
    requires Utf8(cs) && i <= |text|
    ensures r.Some? ==> i <= r.value <= |text| && Offset(cs, text, r.value) == at
    ensures r.None? ==> forall j :: i <= j <= |text| ==> Offset(cs, text, j) != at
    decreases |text| - i
  {
    if Offset(cs, text, i) == at then Some(i)
    else if i == |text| then None
    else CharIndex(cs, text, i + 1, at)
  }

  lemma CharIndexOf(cs: Chars, text: string, i: nat)
    requires Utf8(cs) && i <= |text|
    ensures CharIndex(cs, text, 0, Offset(cs, text, i)) == Some(i)
  {
    var r := CharIndex(cs, text, 0, Offset(cs, text, i));
    assert r.Some?;
    OffsetOrder(cs, text, r.value, i);
    OffsetOrder(cs, text, i, r.value);
  }

  /** `str::len`. */
  function ByteLen(cs: Chars, text: string): nat {
    Offset(cs, text, |text|)
  }

  /** `&text[a..b]` on byte offsets. */
  function Slice(cs: Chars, text: string, a: nat, b: nat): string
    requires Utf8(cs) && a <= b
    requires CharIndex(cs, text, 0, a).Some? && CharIndex(cs, text, 0, b).Some?
  {
    var (i, j) := (CharIndex(cs, text, 0, a).value, CharIndex(cs, text, 0, b).value);
    OffsetOrder(cs, text, j, i);
    text[i..j]
  }

  lemma {:induction false} OffsetOfPart(cs: Chars, text: string, i: nat, part: string, n: nat)
    requires i + |part| <= |text| && text[i..i + |part|] == part && n <= |part|
    ensures Offset(cs, text, i + n) == Offset(cs, text, i) + Offset(cs, part, n)
  {
    if n > 0 {
      OffsetOfPart(cs, text, i, part, n - 1);
      assert part[n - 1] == text[i + n - 1];
    }
  }

  /** With case the match is the query itself. */
  lemma ExactHit(s: Search, i: nat)
    requires s.matchCase && i <= |s.text|
    ensures Hit(s, i) <==> i + |s.query| <= |s.text| && s.text[i..i + |s.query|] == s.query
  {
    if i + |s.query| <= |s.text| {
      var part := s.text[i..i + |s.query|];
      assert forall k :: 0 <= k < |s.query| ==> part[k] == s.text[i + k];
    }
  }

  /** The end of a match of the query starting at byte `at`, if there is one. */
  method MatchAt(s: Search, at: nat) returns (end: Option<nat>)
    requires Utf8(s.cs)
    ensures match CharIndex(s.cs, s.text, 0, at)
      case None => end == None
      case Some(i) => end == if Hit(s, i) then Some(Offset(s.cs, s.text, i + |s.query|)) else None
  {
    var index := CharIndex(s.cs, s.text, 0, at);
    if index.None? { return None; }
    var i := index.value;
    if s.matchCase {
      ExactHit(s, i);
      if i + |s.query| <= |s.text| && s.text[i..i + |s.query|] == s.query {
        OffsetOfPart(s.cs, s.text, i, s.query, |s.query|);
        return Some(at + ByteLen(s.cs, s.query));
      }
      return None;
    }
    var k := 0;
    while k < |s.query|
      invariant k <= |s.query| && i + k <= |s.text|
      invariant forall m :: 0 <= m < k ==> Same(s, s.text[i + m], s.query[m])
    {
      if i + k == |s.text| { return None; }
      var (c, q) := (s.text[i + k], s.query[k]);
      if c != q && s.cs.lower(c) != s.cs.lower(q) {
        assert !Same(s, s.text[i + k], s.query[k]);
        return None;
      }
      k := k + 1;
    }
    return Some(if i + k == |s.text| then ByteLen(s.cs, s.text) else Offset(s.cs, s.text, i + k));
  }

  /** Whether a byte range is exactly a match. */
  method IsMatch(s: Search, range: Range) returns (yes: bool)
    requires Utf8(s.cs)
    ensures yes <==> s.query != "" &&
                     exists i :: 0 <= i <= |s.text| && Hit(s, i) && range == BytesOf(s.cs, s.text, i, |s.query|)
  {
    if s.query == "" { return false; }
    var end := MatchAt(s, range.start);
    yes := end == Some(range.end);
    ghost var index := CharIndex(s.cs, s.text, 0, range.start);
    forall i | 0 <= i <= |s.text| && Hit(s, i) && range == BytesOf(s.cs, s.text, i, |s.query|) ensures index == Some(i) {
      CharIndexOf(s.cs, s.text, i);
    }
    if yes {
      assert Hit(s, index.value) && range == BytesOf(s.cs, s.text, index.value, |s.query|);
    }
  }

  /** `str::find` from character `i`: the leftmost exact occurrence. */
  method FindFrom(s: Search, i: nat) returns (r: Option<nat>)
    requires s.matchCase && i <= |s.text|
    ensures r.Some? ==> i <= r.value && Hit(s, r.value) && forall j :: i <= j < r.value ==> !Hit(s, j)
    ensures r.None? ==> forall j :: i <= j <= |s.text| ==> !Hit(s, j)
  {
    var j := i;
    while j <= |s.text|
      invariant i <= j <= |s.text| + 1
      invariant forall m :: i <= m < j ==> !Hit(s, m)
    {
      ExactHit(s, j);
      if j + |s.query| <= |s.text| && s.text[j..j + |s.query|] == s.query { return Some(j); }
      j := j + 1;
    }
    return None;
  }

  lemma {:induction false} GreedySkips(s: Search, i: nat, j: nat)
    requires s.query != "" && i <= j && forall m :: i <= m < j ==> !Hit(s, m)
    ensures Greedy(s, i) == Greedy(s, j)
    decreases j - i
  {
    hide Hit;
    if i < j && i < |s.text| {
      GreedySkips(s, i + 1, j);
    }
  }

  /** The iterator `matches` returns: it remembers only a byte position. */
  class Matches {
    const s: Search
    var pos: nat
    /** The character at `pos`; one past the end once the scan has run off. */
    ghost var index: nat

    ghost predicate Valid()
      reads this
    {
      Utf8(s.cs) && index <= |s.text| + 1 &&
      pos == if index <= |s.text| then Offset(s.cs, s.text, index) else ByteLen(s.cs, s.text) + 1
    }

    /** The matches still to come. */
    ghost function Remaining(): seq<nat>
      reads this
    {
      if s.query == "" then [] else Greedy(s, index)
    }

    constructor (s: Search)
      requires Utf8(s.cs)
      ensures Valid() && this.s == s && Remaining() == All(s)
    {
      this.s, pos, index := s, 0, 0;
    }

    /** Move on to the next match, if there is one: straight to it when the
        case is exact, else character by character. */
    method Advance() returns (found: bool)
      requires Valid() && s.query != ""
      modifies this
      ensures Valid()
      ensures found ==> index <= |s.text| && Hit(s, index) && Greedy(s, index) == Greedy(s, old(index))
      ensures !found ==> Greedy(s, old(index)) == [] == Greedy(s, index)
    {
      hide Hit;
      ghost var start := index;
      while pos <= ByteLen(s.cs, s.text)
        invariant Valid() && Greedy(s, index) == Greedy(s, start)
        decreases |s.text| + 1 - index
      {
        CharIndexOf(s.cs, s.text, index);
        var here := CharIndex(s.cs, s.text, 0, pos).value;
        if s.matchCase {
          var hit := FindFrom(s, here);
          if hit.None? {
            GreedySkips(s, here, |s.text|);
            return false;
          }
          GreedySkips(s, here, hit.value);
          pos := Offset(s.cs, s.text, hit.value);
          index := hit.value;
          return true;
        }
        var end := MatchAt(s, pos);
        if end.Some? { return true; }
        pos := pos + if here < |s.text| then s.cs.width(s.text[here]) else 1;
        index := index + 1;
      }
      if index <= |s.text| {
        OffsetOrder(s.cs, s.text, |s.text|, index);
      }
      return false;
    }

    /** The byte range of the next match. Both the exact-case fast path and
        the character-by-character scan walk the same leftmost-greedy list. */
    method Next() returns (r: Option<Range>)
      requires Valid()
      modifies this
      ensures Valid()
      ensures r.None? ==> old(Remaining()) == [] && Remaining() == []
      ensures r.Some? ==> old(Remaining()) != [] && Remaining() == old(Remaining())[1..] &&
                          old(Remaining())[0] + |s.query| <= |s.text| &&
                          r.value == BytesOf(s.cs, s.text, old(Remaining())[0], |s.query|)
    {
      if s.query == "" { return None; }
      var found := Advance();
      if !found { return None; }
      CharIndexOf(s.cs, s.text, index);
      var here := CharIndex(s.cs, s.text, 0, pos).value;
      var end := Offset(s.cs, s.text, here + |s.query|);
      r := Some(Range(pos, end));
      GreedyAtHit(s, index);
      pos := end;
      index := index + |s.query|;
    }
  }

  lemma GreedyAtHit(s: Search, i: nat)
    requires s.query != "" && Hit(s, i)
    ensures Greedy(s, i) == [i] + Greedy(s, i + |s.query|)
  {
  }

  lemma AllFit(s: Search)
    ensures Fit(s.text, 0, |s.query|, All(s))
  {
    if s.query != "" {
      GreedyFits(s, 0);
    }
  }

  lemma AllAreHits(s: Search)
    ensures AllHits(s, 0, All(s))
  {
    if s.query != "" {
      GreedyIsLeftmostGreedy(s, 0);
    }
  }

  /** All matches as byte ranges, in order. */
  ghost function Ranges(s: Search): seq<Range> {
    AllFit(s);
    var all := All(s);
    seq(|all|, k requires 0 <= k < |all| => BytesOf(s.cs, s.text, all[k], |s.query|))
  }

  /** Byte ranges are not empty, in order, and do not overlap. */
  lemma RangesInOrder(s: Search, a: nat, b: nat)
    requires Utf8(s.cs) && a < |Ranges(s)| && b < |Ranges(s)|
    ensures Ranges(s)[a].start < Ranges(s)[a].end
    ensures a < b ==> Ranges(s)[a].end <= Ranges(s)[b].start
  {
    AllFit(s);
    var all := All(s);
    OffsetOrder(s.cs, s.text, all[a], all[a] + |s.query|);
    OffsetOrder(s.cs, s.text, all[b], all[a] + |s.query|);
  }

  /** `m` is the last of the first `n` ranges to start before `from`. */
  ghost predicate IsLastBefore(ranges: seq<Range>, n: nat, from: nat, m: Range)
    requires n <= |ranges|
  {
    m.start < from &&
    exists k :: 0 <= k < n && m == ranges[k] && forall j :: k < j < n ==> ranges[j].start >= from
  }

  ghost predicate IsFirstFrom(ranges: seq<Range>, from: nat, m: Range) {
    m.start >= from &&
    exists k :: 0 <= k < |ranges| && m == ranges[k] && forall j :: 0 <= j < k ==> ranges[j].start < from
  }

  /** Forwards: the first match starting at or after `from`, else the first
      of all. Backwards: the last match starting before `from`, else the last
      of all. Nothing only when there is no match. */
  ghost predicate IsFound(ranges: seq<Range>, from: nat, backwards: bool, r: Option<Range>) {
    match r
    case None => ranges == []
    case Some(m) =>
      if backwards then
        IsLastBefore(ranges, |ranges|, from, m) ||
        (ranges != [] && m == ranges[|ranges| - 1] && forall j :: 0 <= j < |ranges| ==> ranges[j].start >= from)
      else
        IsFirstFrom(ranges, from, m) ||
        (ranges != [] && m == ranges[0] && forall j :: 0 <= j < |ranges| ==> ranges[j].start < from)
  }

  /** `it` has handed out the first `n` matches. */
  ghost predicate At(it: Matches, n: nat)
    reads it
  {
    it.Valid() && n <= |All(it.s)| && it.Remaining() == All(it.s)[n..]
  }

  /** One step of the iterator hands out the next range of the list. */
  method NextRange(it: Matches, ghost n: nat) returns (r: Option<Range>)
    requires At(it, n)
    modifies it
    ensures r.None? ==> n == |All(it.s)| && At(it, n)
    ensures r.Some? ==> n < |All(it.s)| && At(it, n + 1) && r.value == Ranges(it.s)[n]
  {
    hide All;
    r := it.Next();
  }

  /** Backwards: the last match before `from`, or the last of all. */
  method FindBackwards(s: Search, from: nat) returns (r: Option<Range>)
    requires Utf8(s.cs)
    ensures IsFound(Ranges(s), from, true, r)
  {
    var all := new Matches(s);
    hide *;
    ghost var ranges := Ranges(s);
    ghost var n: nat := 0;
    assert |ranges| == |All(s)| && At(all, n) by { RangesLength(s); AtStart(all); }
    var last: Option<Range> := None;
    r := None;
    assert LastSoFar(ranges, 0, from, None) by { LastSoFarStart(ranges, from); }
    while true
      invariant all.s == s && At(all, n) && n <= |ranges| == |All(s)|
      invariant last == if n == 0 then None else Some(ranges[n - 1])
      invariant LastSoFar(ranges, n, from, r)
      decreases |ranges| - n
    {
      var m := NextRange(all, n);
      if m.None? { break; }
      LastSoFarStep(ranges, n, from, r);
      if m.value.start < from { r := m; }
      last := m;
      n := n + 1;
    }
    ghost var result := r;
    if r.None? { r := last; }
    LastSoFarEnd(ranges, from, result, r);
  }

  /** `r` is the last of the first `n` ranges to start before `from`. */
  ghost predicate LastSoFar(ranges: seq<Range>, n: nat, from: nat, r: Option<Range>)
    requires n <= |ranges|
  {
    match r
    case None => forall j :: 0 <= j < n ==> ranges[j].start >= from
    case Some(m) => IsLastBefore(ranges, n, from, m)
  }

  lemma LastSoFarStart(ranges: seq<Range>, from: nat)
    ensures LastSoFar(ranges, 0, from, None)
  {
  }

  lemma LastSoFarStep(ranges: seq<Range>, n: nat, from: nat, r: Option<Range>)
    requires n < |ranges| && LastSoFar(ranges, n, from, r)
    ensures LastSoFar(ranges, n + 1, from, if ranges[n].start < from then Some(ranges[n]) else r)
  {
  }

  lemma LastSoFarEnd(ranges: seq<Range>, from: nat, before: Option<Range>, r: Option<Range>)
    requires LastSoFar(ranges, |ranges|, from, before)
    requires r == if before.Some? then before else if ranges == [] then None else Some(ranges[|ranges| - 1])
    ensures IsFound(ranges, from, true, r)
  {
  }

  lemma RangesLength(s: Search)
    ensures |Ranges(s)| == |All(s)|
  {
  }

  lemma AtStart(it: Matches)
    requires it.Valid() && it.Remaining() == All(it.s)
    ensures At(it, 0)
  {
  }

  /** The first `n` ranges all start before `from`. */
  ghost predicate NoneFrom(ranges: seq<Range>, n: nat, from: nat)
    requires n <= |ranges|
  {
    forall j :: 0 <= j < n ==> ranges[j].start < from
  }

  lemma FirstFromStep(ranges: seq<Range>, n: nat, from: nat)
    requires n < |ranges| && NoneFrom(ranges, n, from)
    ensures if ranges[n].start < from then NoneFrom(ranges, n + 1, from)
            else IsFound(ranges, from, false, Some(ranges[n]))
  {
  }

  lemma FirstFromEnd(ranges: seq<Range>, from: nat)
    requires NoneFrom(ranges, |ranges|, from)
    ensures IsFound(ranges, from, false, if ranges == [] then None else Some(ranges[0]))
  {
  }

  lemma NoneFromStart(ranges: seq<Range>, from: nat)
    ensures NoneFrom(ranges, 0, from)
  {
  }

  /** Forwards: the first match from `from` on, or the first of all. */
  method FindForwards(s: Search, from: nat) returns (r: Option<Range>)
    requires Utf8(s.cs)
    ensures IsFound(Ranges(s), from, false, r)
  {
    var all := new Matches(s);
    hide *;
    ghost var ranges := Ranges(s);
    ghost var n: nat := 0;
    assert |ranges| == |All(s)| && At(all, 0) by { RangesLength(s); AtStart(all); }
    NoneFromStart(ranges, from);
    var first: Option<Range> := None;
    while true
      invariant all.s == s && At(all, n) && n <= |ranges| == |All(s)|
      invariant first == if n == 0 then None else Some(ranges[0])
      invariant NoneFrom(ranges, n, from)
      decreases |ranges| - n
    {
      var m := NextRange(all, n);
      if m.None? { break; }
      FirstFromStep(ranges, n, from);
      if m.value.start >= from { return m; }
      if first.None? { first := m; }
      n := n + 1;
    }
    FirstFromEnd(ranges, from);
    return first;
  }

  /** The next match searching from byte `from`, wrapping around. */
  method FindNext(s: Search, from: nat, backwards: bool) returns (r: Option<Range>)
    requires Utf8(s.cs)
    ensures IsFound(Ranges(s), from, backwards, r)
  {
    if backwards {
      r := FindBackwards(s, from);
    } else {
      r := FindForwards(s, from);
    }
  }

  lemma OffsetOfStart(cs: Chars, text: string)
    ensures Offset(cs, text, 0) == 0
  {
  }

  lemma RangeAt(s: Search, n: nat)
    requires n < |All(s)|
    ensures All(s)[n] + |s.query| <= |s.text|
    ensures Ranges(s)[n] == Range(Offset(s.cs, s.text, All(s)[n]), Offset(s.cs, s.text, All(s)[n] + |s.query|))
  {
    AllFit(s);
  }

  /** A byte slice between two boundaries is the characters between them. */
  lemma SliceIs(cs: Chars, text: string, i: nat, j: nat)
    requires Utf8(cs) && i <= j <= |text|
    ensures Offset(cs, text, i) <= Offset(cs, text, j)
    ensures CharIndex(cs, text, 0, Offset(cs, text, i)) == Some(i)
    ensures CharIndex(cs, text, 0, Offset(cs, text, j)) == Some(j)
    ensures Slice(cs, text, Offset(cs, text, i), Offset(cs, text, j)) == text[i..j]
  {
    hide Offset;
    hide CharIndex;
    OffsetOrder(cs, text, j, i);
    CharIndexOf(cs, text, i);
    CharIndexOf(cs, text, j);
  }

  /** The text rebuilt from the gaps between matches and `with`. */
  ghost function Replaced(s: Search, with: string): string {
    AllFit(s);
    Rebuilt(s.text, 0, |s.query|, All(s), with)
  }

  /** After `n` matches `out` holds everything before character `at`. */
  ghost predicate Progress(s: Search, with: string, out: string, at: nat, n: nat) {
    n <= |All(s)| && Fit(s.text, at, |s.query|, All(s)[n..]) &&
    out + Rebuilt(s.text, at, |s.query|, All(s)[n..], with) == Replaced(s, with)
  }

  lemma ProgressStart(s: Search, with: string)
    ensures Progress(s, with, "", 0, 0)
  {
    AllFit(s);
    assert All(s)[0..] == All(s);
  }

  lemma ProgressStep(s: Search, with: string, out: string, at: nat, n: nat)
    requires Progress(s, with, out, at, n) && n < |All(s)|
    ensures at <= All(s)[n] <= All(s)[n] + |s.query| <= |s.text|
    ensures Progress(s, with, out + s.text[at..All(s)[n]] + with, All(s)[n] + |s.query|, n + 1)
  {
    hide All;
    hide Replaced;
    var starts := All(s)[n..];
    assert starts[1..] == All(s)[n + 1..];
    FitTail(s.text, at, |s.query|, starts);
    var rest := Rebuilt(s.text, starts[0] + |s.query|, |s.query|, starts[1..], with);
    assert out + (s.text[at..starts[0]] + with + rest) == out + s.text[at..starts[0]] + with + rest;
  }

  lemma ProgressEnd(s: Search, with: string, out: string, at: nat, n: nat)
    requires Progress(s, with, out, at, n) && n == |All(s)|
    ensures at <= |s.text| && out + s.text[at..|s.text|] == Replaced(s, with)
  {
    hide All;
    hide Replaced;
    assert s.text[at..|s.text|] == s.text[at..];
  }

  /** Where the replacement stands: `last` is the byte offset of `at`. */
  ghost predicate Reached(s: Search, with: string, out: string, last: nat, at: nat, n: nat) {
    Progress(s, with, out, at, n) && at <= |s.text| && last == Offset(s.cs, s.text, at)
  }

  /** Copy the gap before the match `m` and put `with` in its place. */
  method ReplaceOne(s: Search, with: string, out: string, last: nat, m: Range, ghost at: nat, ghost n: nat)
    returns (longer: string, end: nat, ghost at': nat)
    requires Utf8(s.cs) && Reached(s, with, out, last, at, n)
    requires n < |All(s)| && m == Ranges(s)[n]
    ensures Reached(s, with, longer, end, at', n + 1)
  {
    hide All;
    hide Progress;
    ProgressStep(s, with, out, at, n);
    RangeAt(s, n);
    SliceIs(s.cs, s.text, at, All(s)[n]);
    longer := out + Slice(s.cs, s.text, last, m.start) + with;
    end := m.end;
    at' := All(s)[n] + |s.query|;
  }

  /** `text` with every match replaced, and the number replaced. */
  method ReplaceAll(s: Search, with: string) returns (out: string, n: nat)
    requires Utf8(s.cs)
    ensures out == Replaced(s, with)
    ensures n == |All(s)|
  {
    var it := new Matches(s);
    AtStart(it);
    ProgressStart(s, with);
    OffsetOfStart(s.cs, s.text);
    var last := 0;
    ghost var at: nat := 0;
    out, n := "", 0;
    assert Reached(s, with, out, last, at, n);
    hide *;
    while true
      invariant it.s == s && At(it, n) && n <= |All(s)|
      invariant Reached(s, with, out, last, at, n)
      decreases |All(s)| - n
    {
      var m := NextRange(it, n);
      if m.None? { break; }
      out, last, at := ReplaceOne(s, with, out, last, m.value, at, n);
      n := n + 1;
    }
    out := ReplaceTail(s, with, out, last, at, n);
  }

  /** Copy what follows the last match. */
  method ReplaceTail(s: Search, with: string, out: string, last: nat, ghost at: nat, ghost n: nat)
    returns (whole: string)
    requires Utf8(s.cs) && Reached(s, with, out, last, at, n) && n == |All(s)|
    ensures whole == Replaced(s, with)
  {
    hide All;
    hide Progress;
    ProgressEnd(s, with, out, at, n);
    SliceIs(s.cs, s.text, at, |s.text|);
    whole := out + Slice(s.cs, s.text, last, ByteLen(s.cs, s.text));
  }

  /** The length changes by the same amount for every match replaced. */
  lemma ReplacedLength(s: Search, with: string)
    ensures |Replaced(s, with)| == |s.text| + |All(s)| * (|with| - |s.query|)
  {
    AllFit(s);
    RebuiltLength(s.text, 0, |s.query|, All(s), with);
  }

  /** Replacing an exact-case query by itself leaves the text as it is. */
  lemma ReplaceByItselfIsIdentity(s: Search)
    requires s.matchCase
    ensures Replaced(s, s.query) == s.text
  {
    AllFit(s);
    AllAreHits(s);
    hide Hit;
    hide All;
    forall k | 0 <= k < |All(s)| ensures s.text[All(s)[k]..All(s)[k] + |s.query|] == s.query {
      ExactHit(s, All(s)[k]);
    }
    RebuiltIdentity(s.text, 0, All(s), s.query);
  }
}
