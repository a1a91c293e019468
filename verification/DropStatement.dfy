/** Dropping a statement into the editor: `Tab::drop_statement` in
    crates/sqail-ui/src/editor.rs, on characters. */
module DropSpec {
  import opened Prelude
  import opened Texts

  function Lines(text: string): (ls: seq<string>)
    ensures ls != []
  {
    SplitOn('\n', text)
  }

  /** The line that character index `at` is on. */
  function LineOf(text: string, at: nat): nat
    requires at <= |text|
  {
    |Lines(text[..at])| - 1
  }

  /** Start of the line: after the last line break before `p`. */
  function LineStart(text: string, p: nat): (start: nat)
    requires p <= |text|
    ensures start <= p && (start == 0 || text[start - 1] == '\n') && '\n' !in text[start..p]
  {
    if p == 0 || text[p - 1] == '\n' then p
    else
      var start := LineStart(text, p - 1);
      assert text[start..p] == text[start..p - 1] + [text[p - 1]];
      start
  }

  /** End of the line: the first line break from `p` on. */
  function LineEnd(text: string, p: nat): (end: nat)
    requires p <= |text|
    ensures p <= end <= |text| && (end == |text| || text[end] == '\n') && '\n' !in text[p..end]
    decreases |text| - p
  {
    if p == |text| || text[p] == '\n' then p
    else
      var end := LineEnd(text, p + 1);
      assert text[p..end] == [text[p]] + text[p + 1..end];
      end
  }

  /** The lines that stay above and below a dropped statement. */
  datatype Spot = Spot(above: seq<string>, below: seq<string>)

  /** A blank line is replaced; otherwise the statement goes below the text. */
  function SpotAt(ls: seq<string>, i: nat): Spot
    requires i < |ls|
  {
    if Blank(ls[i]) then Spot(ls[..i], ls[i + 1..]) else Spot(ls, [])
  }

  /** The blank line between non-blank lines above and a statement. */
  function PadBelow(above: seq<string>): seq<string> {
    if above != [] && !Blank(above[|above| - 1]) then [""] else []
  }

  function PadAbove(below: seq<string>): seq<string> {
    if below != [] && !Blank(below[0]) then [""] else []
  }

  /** Everything up to the end of the dropped statement. */
  function Head(spot: Spot, s: string): seq<string> {
    spot.above + PadBelow(spot.above) + Lines(s)
  }

  /** Everything after it. */
  function Tail(spot: Spot): seq<string> {
    PadAbove(spot.below) + spot.below
  }

  /** The text after dropping `s` at `at`, and the caret: the statement's
      lines stand together between the lines that stay. */
  ghost predicate Dropped(text: string, at: nat, s: string, out: string, caret: nat) {
    var p := if at < |text| then at else |text|;
    var i := LineOf(text, p);
    i < |Lines(text)| && caret <= |out| &&
    var spot := SpotAt(Lines(text), i);
    Lines(out) == Head(spot, s) + Tail(spot) && Lines(out[..caret]) == Head(spot, s)
  }

  /** `start..end` is a line of `t`. */
  ghost predicate IsLine(t: string, start: nat, end: nat) {
    start <= end <= |t| && (start == 0 || t[start - 1] == '\n') && (end == |t| || t[end] == '\n') &&
    '\n' !in t[start..end]
  }

  function Above(t: string, start: nat): (ls: seq<string>)
    requires start <= |t|
    ensures ls == [] <==> start == 0
  {
    if start == 0 then [] else Lines(t[..start - 1])
  }

  function Below(t: string, end: nat): (ls: seq<string>)
    requires end <= |t|
    ensures ls == [] <==> end == |t|
  {
    if end == |t| then [] else Lines(t[end + 1..])
  }

  lemma AboveSplits(t: string, start: nat, rest: string)
    requires start <= |t| && (start == 0 || t[start - 1] == '\n')
    ensures Lines(t[..start] + rest) == Above(t, start) + Lines(rest)
  {
    hide SplitOn;
    if start == 0 {
      assert t[..start] + rest == rest;
    } else {
      SplitAt('\n', t[..start - 1], rest);
      assert t[..start] + rest == t[..start - 1] + ['\n'] + rest;
    }
  }

  lemma BelowSplits(t: string, end: nat, front: string)
    requires end <= |t| && (end == |t| || t[end] == '\n')
    ensures Lines(front + t[end..]) == Lines(front) + Below(t, end)
  {
    hide SplitOn;
    if end == |t| {
      assert front + t[end..] == front;
    } else {
      SplitAt('\n', front, t[end + 1..]);
      assert front + t[end..] == front + ['\n'] + t[end + 1..];
    }
  }

  lemma ThreeParts(t: string, start: nat, end: nat)
    requires start <= end <= |t|
    ensures t == t[..start] + (t[start..end] + t[end..])
  {
  }

  lemma LineIsBetween(t: string, start: nat, end: nat)
    requires IsLine(t, start, end)
    ensures Lines(t) == Above(t, start) + [t[start..end]] + Below(t, end)
  {
    var (l, b) := (t[start..end], t[end..]);
    SplitWhole('\n', l);
    AboveSplits(t, start, l + b);
    BelowSplits(t, end, l);
    ThreeParts(t, start, end);
    assert Lines(l) == [l];
    hide *;
    ConcatAssoc(Above(t, start), [l], Below(t, end));
  }

  lemma LineFound(t: string, p: nat)
    requires p <= |t|
    ensures IsLine(t, LineStart(t, p), LineEnd(t, p)) && |Above(t, LineStart(t, p))| == LineOf(t, p)
  {
    var (start, end) := (LineStart(t, p), LineEnd(t, p));
    assert t[start..end] == t[start..p] + t[p..end];
    assert IsLine(t, start, end);
    assert t[..p] == t[..start] + t[start..p];
    hide *;
    AboveSplits(t, start, t[start..p]);
    SplitWhole('\n', t[start..p]);
    LineCount(t, p, start);
  }

  lemma LineCount(t: string, p: nat, start: nat)
    requires start <= p <= |t| && Lines(t[..p]) == Above(t, start) + Lines(t[start..p])
    requires SplitOn('\n', t[start..p]) == [t[start..p]]
    ensures |Above(t, start)| == LineOf(t, p)
  {
    hide SplitOn;
    hide Above;
  }

  /** Where the statement goes, from the line the caret is on. */
  lemma SpotFound(t: string, p: nat)
    requires p <= |t|
    ensures LineOf(t, p) < |Lines(t)|
    ensures var (start, end) := (LineStart(t, p), LineEnd(t, p));
            SpotAt(Lines(t), LineOf(t, p)) ==
            if Blank(t[start..end]) then Spot(Above(t, start), Below(t, end)) else Spot(Lines(t), [])
  {
    var (start, end) := (LineStart(t, p), LineEnd(t, p));
    LineFound(t, p);
    LineIsBetween(t, start, end);
    hide Lines;
    hide Above;
    hide Below;
    hide LineOf;
    hide Blank;
    Middle(Above(t, start), t[start..end], Below(t, end));
  }

  lemma Middle<T>(a: seq<T>, x: T, b: seq<T>)
    ensures var all := a + [x] + b; all[|a|] == x && all[..|a|] == a && all[|a| + 1..] == b
  {
  }

  function BreakIf(b: bool): string {
    if b then "\n" else ""
  }

  function EmptyLineIf(b: bool): seq<string> {
    if b then [""] else []
  }

  lemma LeadLines(t: string, start: nat, s: string, front: bool)
    requires start <= |t| && (start == 0 || t[start - 1] == '\n')
    ensures Lines(t[..start] + (BreakIf(front) + s)) == Above(t, start) + EmptyLineIf(front) + Lines(s)
  {
    AboveSplits(t, start, BreakIf(front) + s);
    Break(s);
    assert "" + s == s;
    assert [] + Lines(s) == Lines(s);
    hide Lines;
    hide Above;
    ConcatAssoc(Above(t, start), EmptyLineIf(front), Lines(s));
  }

  lemma AllLines(t: string, end: nat, lead: string, back: bool)
    requires end <= |t| && (end == |t| || t[end] == '\n')
    ensures Lines(lead + BreakIf(back) + t[end..]) == Lines(lead) + (EmptyLineIf(back) + Below(t, end))
  {
    BelowSplits(t, end, lead + BreakIf(back));
    BreakAfter(lead);
    assert lead + "" == lead;
    assert Lines(lead) + [] == Lines(lead);
    hide Lines;
    hide Below;
    ConcatAssoc(Lines(lead), EmptyLineIf(back), Below(t, end));
  }

  /** The text as edited has the lines it should. */
  lemma Placed(t: string, start: nat, end: nat, s: string, prevBlank: bool, nextBlank: bool)
    requires IsLine(t, start, end)
    requires prevBlank == (start == 0 || Blank(Above(t, start)[|Above(t, start)| - 1]))
    requires nextBlank == (end == |t| || Blank(Below(t, end)[0]))
    ensures var lead := t[..start] + (BreakIf(!prevBlank) + s);
            var spot := Spot(Above(t, start), Below(t, end));
            Lines(lead) == Head(spot, s) &&
            Lines(lead + BreakIf(!nextBlank) + t[end..]) == Head(spot, s) + Tail(spot)
  {
    var lead := t[..start] + (BreakIf(!prevBlank) + s);
    LeadLines(t, start, s, !prevBlank);
    AllLines(t, end, lead, !nextBlank);
    assert EmptyLineIf(!prevBlank) == PadBelow(Above(t, start));
    assert EmptyLineIf(!nextBlank) == PadAbove(Below(t, end));
    hide Lines;
    hide Above;
    hide Below;
    hide BreakIf;
    hide EmptyLineIf;
  }

  lemma Break(s: string)
    ensures Lines("\n" + s) == [""] + Lines(s)
  {
    SplitAt('\n', "", s);
    assert "" + ['\n'] + s == "\n" + s;
  }

  lemma BreakAfter(s: string)
    ensures Lines(s + "\n") == Lines(s) + [""]
  {
    SplitAt('\n', s, "");
    assert s + ['\n'] + "" == s + "\n";
  }

  function NonBlank(ls: seq<string>): seq<string> {
    if ls == [] then [] else (if Blank(ls[0]) then [] else [ls[0]]) + NonBlank(ls[1..])
  }

  lemma NonBlankStep(a: seq<string>)
    requires a != []
    ensures NonBlank(a) == (if Blank(a[0]) then [] else [a[0]]) + NonBlank(a[1..])
  {
    hide Blank;
  }

  lemma NonBlankFirst(a: seq<string>)
    requires a != []
    ensures NonBlank(a) == NonBlank([a[0]]) + NonBlank(a[1..])
  {
    NothingBelow();
    hide *;
    NonBlankStep(a);
    NonBlankStep([a[0]]);
    assert [a[0]][1..] == [];
    var first := if Blank(a[0]) then [] else [a[0]];
    assert first + [] == first;
  }

  lemma {:induction false} NonBlankSplits(a: seq<string>, b: seq<string>)
    ensures NonBlank(a + b) == NonBlank(a) + NonBlank(b)
  {
    if a == [] {
      assert a + b == b;
    } else {
      hide *;
      NonBlankSplits(a[1..], b);
      assert (a + b)[1..] == a[1..] + b;
      NonBlankFirst(a + b);
      NonBlankFirst(a);
      ConcatAssoc(NonBlank([a[0]]), NonBlank(a[1..]), NonBlank(b));
    }
  }

  lemma SpotKeepsLines(ls: seq<string>, i: nat)
    requires i < |ls|
    ensures var spot := SpotAt(ls, i); NonBlank(ls) == NonBlank(spot.above) + NonBlank(spot.below)
  {
    if Blank(ls[i]) {
      BlankIsDropped(ls[i..]);
      NonBlankSplits(ls[..i], ls[i..]);
      TakeDrop(ls, i);
    } else {
      NothingBelow();
    }
    hide Blank;
    hide NonBlank;
  }

  lemma BlankIsDropped(ls: seq<string>)
    requires ls != [] && Blank(ls[0])
    ensures NonBlank(ls) == NonBlank(ls[1..])
  {
    hide Blank;
  }

  lemma NothingBelow()
    ensures NonBlank([]) == []
  {
  }

  lemma TakeDrop(ls: seq<string>, i: nat)
    requires i < |ls|
    ensures ls == ls[..i] + ls[i..] && ls[i..][1..] == ls[i + 1..] && ls[i..][0] == ls[i]
  {
  }

  lemma PadsAreBlank(a: seq<string>)
    ensures NonBlank(PadBelow(a)) == [] && NonBlank(PadAbove(a)) == []
  {
    assert Blank("") && NonBlank([]) == [];
    assert [""][1..] == [];
    hide Blank;
  }

  lemma NonBlankHead(spot: Spot, s: string)
    ensures NonBlank(Head(spot, s)) == NonBlank(spot.above) + NonBlank(Lines(s))
  {
    hide *;
    PadsAreBlank(spot.above);
    NonBlankSplits(spot.above + PadBelow(spot.above), Lines(s));
    NonBlankSplits(spot.above, PadBelow(spot.above));
    assert NonBlank(spot.above) + [] == NonBlank(spot.above);
    HeadTailAre(spot, s);
  }

  lemma NonBlankTail(spot: Spot)
    ensures NonBlank(Tail(spot)) == NonBlank(spot.below)
  {
    hide *;
    PadsAreBlank(spot.below);
    NonBlankSplits(PadAbove(spot.below), spot.below);
    assert [] + NonBlank(spot.below) == NonBlank(spot.below);
    HeadTailAre(spot, "");
  }

  lemma HeadTailAre(spot: Spot, s: string)
    ensures Head(spot, s) == spot.above + PadBelow(spot.above) + Lines(s)
    ensures Tail(spot) == PadAbove(spot.below) + spot.below
  {
  }

  /** Every non-blank line of the script survives, in order, and the only new
      ones are the statement's own, standing together. */
  lemma DroppingKeepsScript(text: string, at: nat, s: string, out: string, caret: nat)
    requires Dropped(text, at, s, out, caret)
    ensures var p := if at < |text| then at else |text|;
            LineOf(text, p) < |Lines(text)| &&
            var spot := SpotAt(Lines(text), LineOf(text, p));
            NonBlank(Lines(text)) == NonBlank(spot.above) + NonBlank(spot.below) &&
            NonBlank(Lines(out)) == NonBlank(spot.above) + NonBlank(Lines(s)) + NonBlank(spot.below)
  {
    var p := if at < |text| then at else |text|;
    var spot := SpotAt(Lines(text), LineOf(text, p));
    assert Lines(out) == Head(spot, s) + Tail(spot);
    assert LineOf(text, p) < |Lines(text)|;
    hide *;
    SpotKeepsLines(Lines(text), LineOf(text, p));
    NonBlankSplits(Head(spot, s), Tail(spot));
    NonBlankHead(spot, s);
    NonBlankTail(spot);
  }

  /** The description leaves no choice: one text, one caret. */
  lemma DroppedIsUnique(text: string, at: nat, s: string, out: string, caret: nat, out2: string, caret2: nat)
    requires Dropped(text, at, s, out, caret) && Dropped(text, at, s, out2, caret2)
    ensures out == out2 && caret == caret2
  {
    JoinSplit('\n', out);
    JoinSplit('\n', out2);
    JoinSplit('\n', out[..caret]);
    JoinSplit('\n', out2[..caret2]);
    hide SplitOn;
    hide Join;
    hide Head;
    hide Tail;
    hide SpotAt;
    hide LineOf;
    assert |out[..caret]| == caret && |out2[..caret2]| == caret2;
  }

  lemma DroppedIs(text: string, at: nat, s: string, out: string, caret: nat)
    requires var p := if at < |text| then at else |text|;
             LineOf(text, p) < |Lines(text)| && caret <= |out| &&
             var spot := SpotAt(Lines(text), LineOf(text, p));
             Lines(out) == Head(spot, s) + Tail(spot) && Lines(out[..caret]) == Head(spot, s)
    ensures Dropped(text, at, s, out, caret)
  {
    hide Lines;
    hide LineOf;
    hide SpotAt;
    hide Head;
    hide Tail;
  }

  /** The end of the text with a line break added is an empty line below it. */
  lemma BelowText(t: string)
    ensures IsLine(t + "\n", |t| + 1, |t| + 1)
    ensures Above(t + "\n", |t| + 1) == Lines(t) && Below(t + "\n", |t| + 1) == []
  {
    assert (t + "\n")[..|t|] == t;
  }

  /** There is more than white space in `t[from..to]`. */
  ghost predicate HasText(t: string, from: nat, to: nat)
    requires from <= to <= |t|
  {
    exists k :: from <= k < to && !IsSpace(t[k])
  }

  ghost predicate IsTextLine(t: string, start: nat, end: nat) {
    IsLine(t, start, end) && HasText(t, start, end)
  }

  /** A line with text ends at `end`, or begins at `start`. */
  ghost predicate TextLineTo(t: string, end: nat) {
    exists c: nat :: IsTextLine(t, c, end)
  }

  ghost predicate TextLineFrom(t: string, start: nat) {
    exists d: nat :: IsTextLine(t, start, d)
  }

  /** The line above a line that begins at `start` has text. */
  ghost predicate TextAbove(t: string, start: nat) {
    start > 0 && TextLineTo(t, start - 1)
  }

  /** The line below a line that ends at `end` has text. */
  ghost predicate TextBelow(t: string, end: nat) {
    TextLineFrom(t, end + 1)
  }

  lemma NoBreak(t: string, from: nat, to: nat)
    requires from <= to <= |t| && '\n' !in t[from..to]
    ensures forall i :: from <= i < to ==> t[i] != '\n'
  {
    forall i | from <= i < to ensures t[i] != '\n' {
      assert t[from..to][i - from] == t[i];
    }
  }

  /** A position is on one line only. */
  lemma OneLine(t: string, p: nat, start: nat, end: nat)
    requires IsLine(t, start, end) && start <= p <= end
    ensures start == LineStart(t, p) && end == LineEnd(t, p)
  {
    NoBreak(t, LineStart(t, p), p);
    NoBreak(t, p, LineEnd(t, p));
    NoBreak(t, start, end);
    hide LineStart;
    hide LineEnd;
  }

  lemma BlankHasNoText(t: string, from: nat, to: nat)
    requires from <= to <= |t|
    ensures Blank(t[from..to]) <==> !HasText(t, from, to)
  {
    if k :| from <= k < to && !IsSpace(t[k]) {
      assert t[from..to][k - from] == t[k];
    }
  }

  lemma LastAbove(t: string, start: nat)
    requires 0 < start <= |t| && t[start - 1] == '\n'
    ensures Blank(Above(t, start)[|Above(t, start)| - 1]) <==> !TextAbove(t, start)
  {
    var before := t[..start - 1];
    var c := LineStart(t, start - 1);
    assert before[c..] == t[c..start - 1];
    assert IsLine(t, c, start - 1) && IsLine(before, c, |before|);
    LineIsBetween(before, c, |before|);
    assert Above(t, start)[|Above(t, start)| - 1] == t[c..start - 1];
    BlankHasNoText(t, c, start - 1);
    var end := start - 1;
    forall c2: nat | IsTextLine(t, c2, end) ensures c2 == c {
      OneLine(t, end, c2, end);
    }
    assert IsTextLine(t, c, start - 1) <==> HasText(t, c, start - 1);
    hide Blank;
    hide IsTextLine;
  }

  lemma FirstBelow(t: string, end: nat)
    requires end < |t| && t[end] == '\n'
    ensures Blank(Below(t, end)[0]) <==> !TextBelow(t, end)
  {
    var after := t[end + 1..];
    var d := LineEnd(t, end + 1);
    assert after[..d - end - 1] == t[end + 1..d];
    assert IsLine(t, end + 1, d) && IsLine(after, 0, d - end - 1);
    LineIsBetween(after, 0, d - end - 1);
    assert Below(t, end)[0] == t[end + 1..d];
    BlankHasNoText(t, end + 1, d);
    var start := end + 1;
    forall d2: nat | IsTextLine(t, start, d2) ensures d2 == d {
      OneLine(t, start, start, d2);
    }
    assert IsTextLine(t, end + 1, d) <==> HasText(t, end + 1, d);
    hide Blank;
    hide IsTextLine;
  }

  /** A statement put in place of a line. */
  ghost function PutAt(t: string, start: nat, end: nat, s: string): string
    requires start <= end <= |t|
  {
    LeadAt(t, start, s) + BreakIf(TextBelow(t, end)) + t[end..]
  }

  ghost function LeadAt(t: string, start: nat, s: string): string
    requires start <= |t|
  {
    t[..start] + (BreakIf(TextAbove(t, start)) + s)
  }

  lemma PutIsPlaced(t: string, start: nat, end: nat, s: string)
    requires IsLine(t, start, end)
    ensures var spot := Spot(Above(t, start), Below(t, end));
            Lines(LeadAt(t, start, s)) == Head(spot, s) && Lines(PutAt(t, start, end, s)) == Head(spot, s) + Tail(spot)
  {
    if start > 0 { LastAbove(t, start); }
    if end < |t| { FirstBelow(t, end); }
    var prevBlank := start == 0 || Blank(Above(t, start)[|Above(t, start)| - 1]);
    var nextBlank := end == |t| || Blank(Below(t, end)[0]);
    assert prevBlank == !TextAbove(t, start);
    assert nextBlank == !TextBelow(t, end);
    hide *;
    Placed(t, start, end, s, prevBlank, nextBlank);
    PutIs(t, start, end, s);
  }

  lemma PutIs(t: string, start: nat, end: nat, s: string)
    requires start <= end <= |t|
    ensures LeadAt(t, start, s) == t[..start] + (BreakIf(TextAbove(t, start)) + s)
    ensures PutAt(t, start, end, s) == LeadAt(t, start, s) + BreakIf(TextBelow(t, end)) + t[end..]
    ensures PutAt(t, start, end, s)[..|LeadAt(t, start, s)|] == LeadAt(t, start, s)
  {
  }

  /** In characters: on a line of white space the statement takes the place of
      that line, and otherwise of an empty line added to the text; a line
      break is added towards a neighbour with text, and nothing else. */
  lemma DroppedAsText(text: string, at: nat, s: string, out: string, caret: nat, start: nat, end: nat)
    requires Dropped(text, at, s, out, caret) && IsLine(text, start, end)
    requires var p := if at < |text| then at else |text|; start <= p <= end
    ensures var (t, from, to) := if HasText(text, start, end) then (text + "\n", |text| + 1, |text| + 1)
                                 else (text, start, end);
            var lead := t[..from] + (if TextAbove(t, from) then "\n" else "") + s;
            out == lead + (if TextBelow(t, to) then "\n" else "") + t[to..] && caret == |lead|
  {
    var p := if at < |text| then at else |text|;
    var (t, from, to) := if HasText(text, start, end) then (text + "\n", |text| + 1, |text| + 1) else (text, start, end);
    hide *;
    SpotIs(text, p, start, end);
    PutIsPlaced(t, from, to, s);
    PutIs(t, from, to, s);
    LeadIs(t, from, to, s);
    var (lead, all) := (LeadAt(t, from, s), PutAt(t, from, to, s));
    DroppedIs(text, at, s, all, |lead|);
    DroppedIsUnique(text, at, s, out, caret, all, |lead|);
  }

  lemma SpotIs(text: string, p: nat, start: nat, end: nat)
    requires IsLine(text, start, end) && start <= p <= end
    ensures var (t, from, to) := if HasText(text, start, end) then (text + "\n", |text| + 1, |text| + 1)
                                 else (text, start, end);
            IsLine(t, from, to) && from <= to <= |t| && LineOf(text, p) < |Lines(text)| &&
            SpotAt(Lines(text), LineOf(text, p)) == Spot(Above(t, from), Below(t, to))
  {
    OneLine(text, p, start, end);
    BlankHasNoText(text, start, end);
    SpotFound(text, p);
    BelowText(text);
    hide Lines;
    hide LineOf;
    hide Above;
    hide Below;
    hide HasText;
    hide Blank;
    hide SpotAt;
  }

  lemma LeadIs(t: string, from: nat, to: nat, s: string)
    requires from <= to <= |t|
    ensures LeadAt(t, from, s) == t[..from] + (if TextAbove(t, from) then "\n" else "") + s
    ensures PutAt(t, from, to, s) == LeadAt(t, from, s) + (if TextBelow(t, to) then "\n" else "") + t[to..]
  {
    hide TextAbove;
    hide TextBelow;
  }

  /** The statement stands alone: between the lines before it and the lines
      after it there is a blank line, unless the text begins or ends there. */
  lemma DroppedStandsAlone(text: string, at: nat, s: string, out: string, caret: nat)
    requires Dropped(text, at, s, out, caret)
    ensures var (n, m) := (|Lines(out[..caret])| - |Lines(s)|, |Lines(out[..caret])|);
            0 <= n < m <= |Lines(out)| && Lines(out)[n..m] == Lines(s) &&
            (n == 0 || Blank(Lines(out)[n - 1])) && (m == |Lines(out)| || Blank(Lines(out)[m]))
  {
    var p := if at < |text| then at else |text|;
    var spot := SpotAt(Lines(text), LineOf(text, p));
    var (head, tail) := (Head(spot, s), Tail(spot));
    assert Lines(out) == head + tail && Lines(out[..caret]) == head;
    PadsSeparate(spot, s);
    hide *;
    var n := |head| - |Lines(s)|;
    Embedded(head, tail, n);
  }

  lemma Embedded<T>(head: seq<T>, tail: seq<T>, n: nat)
    requires n <= |head|
    ensures var all := head + tail;
            all[n..|head|] == head[n..] && (n > 0 ==> all[n - 1] == head[n - 1]) && (tail != [] ==> all[|head|] == tail[0])
  {
  }

  /** Blank lines, or nothing, on both sides of the statement. */
  lemma PadsSeparate(spot: Spot, s: string)
    ensures var (head, tail) := (Head(spot, s), Tail(spot));
            var n := |head| - |Lines(s)|;
            0 <= n < |head| && head[n..] == Lines(s) && (n > 0 ==> Blank(head[n - 1])) && (tail != [] ==> Blank(tail[0]))
  {
    hide Lines;
  }
}

module Editor {
  import opened Prelude
  import opened Texts
  import opened DropSpec

  class Tab {
    var text: string
    var cursor: (nat, nat)
    var pendingSelect: Option<(nat, nat)>

    /** Put a statement on the blank line at character index `at`, or on a
        new line after the text, with a blank line to its neighbours. */
    method DropStatement(at: nat, s: string)
      modifies this
      ensures Dropped(old(text), at, s, text, cursor.0)
      ensures cursor.1 == cursor.0 && pendingSelect == Some(cursor)
    {
      var p := if at < |text| then at else |text|;
      var start := LineStart(text, p);
      var end := LineEnd(text, p);
      LineFound(text, p);
      SpotFound(text, p);
      ghost var before := text;
      hide *;
      if !Blank(text[start..end]) {
        BelowText(text);
        text := text + "\n";
        start, end := |text|, |text|;
      }
      var caret;
      text, caret := ReplaceLine(text, start, end, s);
      cursor := (caret, caret);
      pendingSelect := Some(cursor);
      DroppedIs(before, at, s, text, caret);
    }
  }

  /** Replace a line by `s`, with blank lines to non-blank neighbours. */
  method ReplaceLine(t: string, start: nat, end: nat, s: string) returns (out: string, caret: nat)
    requires IsLine(t, start, end)
    ensures var spot := Spot(Above(t, start), Below(t, end));
            caret <= |out| && Lines(out) == Head(spot, s) + Tail(spot) && Lines(out[..caret]) == Head(spot, s)
  {
    var prevBlank := start == 0 || Blank(Above(t, start)[|Above(t, start)| - 1]);
    var nextBlank := end == |t| || Blank(Below(t, end)[0]);
    hide *;
    var rep := BreakIf(!prevBlank) + s;
    Placed(t, start, end, s, prevBlank, nextBlank);
    caret := start + |rep|;
    Assembled(t[..start], rep, BreakIf(!nextBlank), t[end..]);
    out := t[..start] + rep + BreakIf(!nextBlank) + t[end..];
  }

  lemma Assembled(a: string, rep: string, pad: string, b: string)
    ensures (a + rep + pad + b)[..|a| + |rep|] == a + rep
  {
  }
}
