/** How many text lines each grid row takes: `RowLines` in
    crates/sqail-ui/src/results.rs. */
module RowHeights {

  /** A row counts as one line until it is measured. */
  function LinesOf(lines: seq<nat>, row: nat): nat {
    if row < |lines| && lines[row] > 1 then lines[row] else 1
  }

  /** How many rows take more than one line. */
  function TallCount(lines: seq<nat>): nat {
    if lines == [] then 0 else (if lines[0] > 1 then 1 else 0) + TallCount(lines[1..])
  }

  /** Counting finds a tall row exactly if there is one. */
  lemma {:induction false} SomeTallIff(lines: seq<nat>)
    ensures TallCount(lines) > 0 <==> exists row: nat :: LinesOf(lines, row) > 1
  {
    if lines != [] {
      SomeTallIff(lines[1..]);
      if lines[0] > 1 {
        assert LinesOf(lines, 0) > 1;
      } else if TallCount(lines[1..]) > 0 {
        var row: nat :| LinesOf(lines[1..], row) > 1;
        assert LinesOf(lines, row + 1) > 1;
      } else {
        forall row: nat ensures LinesOf(lines, row) <= 1 {
          assert row > 0 ==> LinesOf(lines, row) == LinesOf(lines[1..], row - 1);
        }
      }
    }
  }

  lemma {:induction false} TallJoins(a: seq<nat>, b: seq<nat>)
    ensures TallCount(a + b) == TallCount(a) + TallCount(b)
  {
    if a == [] {
      assert a + b == b;
    } else {
      assert (a + b)[1..] == a[1..] + b;
      TallJoins(a[1..], b);
    }
  }

  lemma {:induction false} NoneTall(n: nat)
    ensures TallCount(seq(n, _ => 0)) == 0
  {
    if n > 0 {
      assert seq(n, _ => 0)[1..] == seq(n - 1, _ => 0);
      NoneTall(n - 1);
    }
  }

  /** One measurement changes the count by what it changes. */
  lemma TallUpdated(lines: seq<nat>, row: nat, n: nat)
    requires row < |lines|
    ensures TallCount(lines[row := n]) ==
            TallCount(lines) + (if n > 1 then 1 else 0) - if lines[row] > 1 then 1 else 0
    ensures lines[row] > 1 ==> TallCount(lines) > 0
  {
    var (a, b) := (lines[..row], lines[row + 1..]);
    assert [n][1..] == [] && [lines[row]][1..] == [];
    assert TallCount([n]) == (if n > 1 then 1 else 0);
    assert TallCount([lines[row]]) == (if lines[row] > 1 then 1 else 0);
    hide TallCount;
    TallJoins(a, [n] + b);
    TallJoins([n], b);
    TallJoins(a, [lines[row]] + b);
    TallJoins([lines[row]], b);
    assert lines[row := n] == a + ([n] + b);
    assert lines == a + ([lines[row]] + b);
  }

  class RowLines {
    var lines: seq<nat>
    var tall: nat
    var key: seq<int>

    /** The counter is exact. */
    ghost predicate Valid()
      reads this
    {
      tall == TallCount(lines) && forall i :: 0 <= i < |lines| ==> lines[i] < 256
    }

    constructor ()
      ensures Valid() && lines == [] && key == []
    {
      lines, tall, key := [], 0, [];
    }

    method Get(row: nat) returns (n: nat)
      ensures n == LinesOf(lines, row)
    {
      var measured := if row < |lines| then lines[row] else 0;
      n := if measured > 1 then measured else 1;
    }

    /** Record a measurement: this row takes that many lines now, every other
        row as many as before; true if the grid must move. */
    method Set(row: nat, n: nat) returns (changed: bool)
      requires Valid() && n < 256
      modifies `lines, `tall
      ensures Valid()
      ensures LinesOf(lines, row) == (if n > 1 then n else 1)
      ensures forall other: nat :: other != row ==> LinesOf(lines, other) == LinesOf(old(lines), other)
      ensures changed <==> LinesOf(lines, row) != LinesOf(old(lines), row)
    {
      if row >= |lines| {
        if n <= 1 { return false; }
        var more := seq(row + 1 - |lines|, _ => 0);
        TallJoins(lines, more);
        NoneTall(row + 1 - |lines|);
        lines := lines + more;
      }
      var was := lines[row];
      TallUpdated(lines, row, n);
      lines := lines[row := n];
      tall := tall + (if n > 1 then 1 else 0) - if was > 1 then 1 else 0;
      changed := (if was > 1 then was else 1) != if n > 1 then n else 1;
    }

    /** Whether any row is taller than one line. */
    method AnyTall() returns (any: bool)
      requires Valid()
      ensures any <==> exists row: nat :: LinesOf(lines, row) > 1
    {
      SomeTallIff(lines);
      any := tall > 0;
    }

    /** Forget the measurements when they are for other widths or another
        font. */
    method InvalidateUnless(key: seq<int>) returns (dropped: bool)
      requires Valid()
      modifies this
      ensures Valid() && this.key == key && (dropped <==> old(this.key) != key)
      ensures dropped ==> forall row: nat :: LinesOf(lines, row) == 1
      ensures !dropped ==> lines == old(lines)
    {
      if this.key == key { return false; }
      this.key := key;
      lines := [];
      tall := 0;
      dropped := true;
    }
  }
}
