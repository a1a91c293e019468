/** How statements are written, and how the review dialog shows them with
    their values (`ph`, `statements` and `preview` in
    crates/sqail-ui/src/editing.rs). */
module PreviewSpec {
  import opened Prelude
  import opened StatementSpec

  datatype Engine = Postgres | Mssql | Sqlite | Unknown

  function Digit(d: nat): char
    requires d < 10
  {
    '0' + (d as char)
  }

  predicate IsDigit(c: char) {
    '0' <= c <= '9'
  }

  /** A number in decimal. */
  function Dec(n: nat): string {
    if n < 10 then [Digit(n)] else Dec(n / 10) + [Digit(n % 10)]
  }

  /** The number that decimal digits stand for. */
  function Number(s: string): nat {
    if s == "" then 0
    else 10 * Number(s[..|s| - 1]) + if IsDigit(s[|s| - 1]) then (s[|s| - 1] - '0') as nat else 0
  }

  lemma {:induction false} DecIsNumber(n: nat)
    ensures Number(Dec(n)) == n && Dec(n) != "" && forall i :: 0 <= i < |Dec(n)| ==> IsDigit(Dec(n)[i])
  {
    if n >= 10 {
      DecIsNumber(n / 10);
      assert Dec(n)[..|Dec(n)| - 1] == Dec(n / 10);
    } else {
      assert Dec(n)[..0] == "";
    }
  }

  lemma {:induction false} PrefixIsSmaller(s: string, i: nat)
    requires i <= |s|
    ensures Number(s[..i]) <= Number(s)
    decreases |s|
  {
    if i == |s| {
      assert s[..i] == s;
    } else {
      PrefixIsSmaller(s[..|s| - 1], i);
      assert s[..|s| - 1][..i] == s[..i];
    }
  }

  /** The character every placeholder starts with. */
  function Marker(e: Engine): char {
    match e case Postgres => '$' case Mssql => '@' case _ => '?'
  }

  /** The other characters of placeholders. */
  predicate Body(e: Engine, c: char) {
    IsDigit(c) ||
    match e
      case Postgres => c == ':' || c == 't' || c == 'e' || c == 'x'
      case Mssql => c == 'P'
      case _ => false
  }

  /** Placeholder `n` as `preview` looks for it. */
  function Placeholder(e: Engine, n: nat): string {
    match e
    case Postgres => "$" + Dec(n) + "::text::"
    case Mssql => "@P" + Dec(n)
    case _ => "?" + Dec(n)
  }

  /** `replace('\'', "''")`. */
  function Escaped(s: string): string {
    if s == "" then "" else (if s[0] == '\'' then "''" else [s[0]]) + Escaped(s[1..])
  }

  function Literal(e: Engine, p: Param): string {
    match p
    case NullParam => "NULL"
    case TextParam(t) => (if e == Mssql then "N'" else "'") + Escaped(t) + "'"
  }

  /** What a placeholder is replaced by. */
  function Shown(e: Engine, p: Param): string {
    if e == Postgres then Literal(e, p) + "::" else Literal(e, p)
  }

  /** `str::replace`: every occurrence from the left, without overlap. */
  function Replace(s: string, pat: string, rep: string): string
    requires pat != ""
    decreases |s|
  {
    if |s| < |pat| then s
    else if s[..|pat|] == pat then rep + Replace(s[|pat|..], pat, rep)
    else [s[0]] + Replace(s[1..], pat, rep)
  }

  lemma PlaceholderShape(e: Engine, n: nat)
    ensures Placeholder(e, n) != "" && Placeholder(e, n)[0] == Marker(e)
    ensures forall i :: 1 <= i < |Placeholder(e, n)| ==> Body(e, Placeholder(e, n)[i])
    ensures !Body(e, Marker(e))
  {
    DecIsNumber(n);
  }

  /** `preview`: replace from the highest number down. */
  function PreviewFrom(e: Engine, s: string, params: seq<Param>, n: nat): string
    requires n <= |params|
    decreases n
  {
    if n == 0 then s
    else
      PlaceholderShape(e, n);
      PreviewFrom(e, Replace(s, Placeholder(e, n), Shown(e, params[n - 1])), params, n - 1)
  }

  function Preview(e: Engine, s: string, params: seq<Param>): string {
    PreviewFrom(e, s, params, |params|)
  }

  /** A statement as written: fixed text and placeholders. */
  datatype Piece = Fixed(text: string) | Hole(n: nat)

  function Written(e: Engine, ps: seq<Piece>): string {
    if ps == [] then ""
    else PieceText(e, ps[0]) + Written(e, ps[1..])
  }

  function PieceText(e: Engine, p: Piece): string {
    match p case Fixed(t) => t case Hole(n) => Placeholder(e, n)
  }

  /** Every placeholder replaced by its value, all at once. */
  function Simultaneous(e: Engine, ps: seq<Piece>, params: seq<Param>): string
    requires HolesUpTo(ps, |params|)
  {
    if ps == [] then ""
    else SubstitutedPiece(e, ps[0], params) + Simultaneous(e, ps[1..], params)
  }

  predicate HolesUpTo(ps: seq<Piece>, n: nat) {
    forall i :: 0 <= i < |ps| && ps[i].Hole? ==> 1 <= ps[i].n <= n
  }

  /** After every marker in `t` comes a character no placeholder contains. */
  ghost predicate Stopped(e: Engine, t: string) {
    forall i :: 0 <= i < |t| && t[i] == Marker(e) ==> StoppedAfter(e, t, i)
  }

  ghost predicate StoppedAfter(e: Engine, t: string, i: nat) {
    exists j :: i < j < |t| && !Body(e, t[j])
  }

  ghost predicate StartsStop(e: Engine, r: string) {
    r == "" || !Body(e, r[0])
  }

  /** No placeholder can be read across the edge of a piece. */
  ghost predicate Safe(e: Engine, ps: seq<Piece>)
    decreases |ps|
  {
    ps == [] ||
    (Safe(e, ps[1..]) && SafeEdge(e, ps[0], Written(e, ps[1..])))
  }

  ghost predicate SafeEdge(e: Engine, p: Piece, r: string) {
    match p
    case Fixed(t) => StartsStop(e, r) || Stopped(e, t)
    case Hole(_) => e == Postgres || r == "" || !IsDigit(r[0])
  }

  /** `pat` stands at index `i`. */
  predicate Occurs(s: string, i: nat, pat: string) {
    i + |pat| <= |s| && s[i..i + |pat|] == pat
  }

  /** No occurrence of `pat` starts in `t` and ends in `r`. */
  ghost predicate NoStraddle(t: string, r: string, pat: string) {
    forall i: nat :: i < |t| && Occurs(t + r, i, pat) ==> i + |pat| <= |t|
  }

  lemma NoStraddleTail(t: string, r: string, pat: string, k: nat)
    requires NoStraddle(t, r, pat) && k <= |t|
    ensures NoStraddle(t[k..], r, pat)
  {
    forall i: nat | i < |t[k..]| && Occurs(t[k..] + r, i, pat) ensures i + |pat| <= |t[k..]| {
      assert (t + r)[k + i..k + i + |pat|] == (t[k..] + r)[i..i + |pat|];
      assert Occurs(t + r, k + i, pat);
    }
  }

  lemma ReplaceHere(s: string, pat: string, rep: string)
    requires pat != "" && Occurs(s, 0, pat)
    ensures Replace(s, pat, rep) == rep + Replace(s[|pat|..], pat, rep)
  {
    assert s[0..0 + |pat|] == s[..|pat|];
  }

  lemma ReplaceNotHere(s: string, pat: string, rep: string)
    requires pat != "" && s != "" && !Occurs(s, 0, pat)
    ensures Replace(s, pat, rep) == [s[0]] + Replace(s[1..], pat, rep)
  {
    if |s| < |pat| {
      assert Replace(s[1..], pat, rep) == s[1..];
      assert s == [s[0]] + s[1..];
    } else {
      assert s[0..0 + |pat|] == s[..|pat|];
    }
  }

  lemma OccursChars(s: string, i: nat, pat: string)
    requires Occurs(s, i, pat)
    ensures forall k {:trigger pat[k]} :: 0 <= k < |pat| ==> s[i + k] == pat[k]
  {
  }

  lemma SplitHere(t: string, r: string, pat: string, rep: string)
    requires pat != "" && |pat| <= |t| && Occurs(t + r, 0, pat)
    requires Replace(t[|pat|..] + r, pat, rep) == Replace(t[|pat|..], pat, rep) + Replace(r, pat, rep)
    ensures Replace(t + r, pat, rep) == Replace(t, pat, rep) + Replace(r, pat, rep)
  {
    hide *;
    OccursInFront(t, r, pat);
    ReplaceHere(t + r, pat, rep);
    ReplaceHere(t, pat, rep);
    ConcatAssoc(rep, Replace(t[|pat|..], pat, rep), Replace(r, pat, rep));
  }

  lemma OccursInFront(t: string, r: string, pat: string)
    requires |pat| <= |t| && Occurs(t + r, 0, pat)
    ensures Occurs(t, 0, pat) && (t + r)[|pat|..] == t[|pat|..] + r
  {
    assert t[0..0 + |pat|] == (t + r)[0..0 + |pat|];
  }

  lemma HeadAndRest(a: string, r: string)
    requires a != ""
    ensures (a + r)[0] == a[0] && (a + r)[1..] == a[1..] + r && a == [a[0]] + a[1..]
  {
  }

  lemma SplitNotHere(t: string, r: string, pat: string, rep: string)
    requires pat != "" && t != "" && !Occurs(t + r, 0, pat)
    requires Replace(t[1..] + r, pat, rep) == Replace(t[1..], pat, rep) + Replace(r, pat, rep)
    ensures Replace(t + r, pat, rep) == Replace(t, pat, rep) + Replace(r, pat, rep)
  {
    hide Replace;
    NotEvenAlone(t, r, pat);
    hide Occurs;
    ReplaceNotHere(t + r, pat, rep);
    ReplaceNotHere(t, pat, rep);
    assert (t + r)[1..] == t[1..] + r;
  }

  lemma NotEvenAlone(t: string, r: string, pat: string)
    requires !Occurs(t + r, 0, pat)
    ensures !Occurs(t, 0, pat)
  {
    if |pat| <= |t| {
      assert t[0..0 + |pat|] == (t + r)[0..0 + |pat|];
    }
  }

  lemma {:induction false} ReplaceSplits(t: string, r: string, pat: string, rep: string)
    requires pat != "" && NoStraddle(t, r, pat)
    ensures Replace(t + r, pat, rep) == Replace(t, pat, rep) + Replace(r, pat, rep)
    decreases |t|
  {
    if t == "" {
      assert t + r == r && Replace(t, pat, rep) == "";
    } else {
      hide *;
      if Occurs(t + r, 0, pat) {
        StraddleNone(t, r, pat);
        NoStraddleTail(t, r, pat, |pat|);
        ReplaceSplits(t[|pat|..], r, pat, rep);
        SplitHere(t, r, pat, rep);
      } else {
        NoStraddleTail(t, r, pat, 1);
        ReplaceSplits(t[1..], r, pat, rep);
        SplitNotHere(t, r, pat, rep);
      }
    }
  }

  lemma StraddleNone(t: string, r: string, pat: string)
    requires NoStraddle(t, r, pat) && t != "" && Occurs(t + r, 0, pat)
    ensures |pat| <= |t|
  {
  }

  /** What it takes for a placeholder to start in `t` and end in `r`. */
  lemma StraddleReaches(e: Engine, t: string, r: string, n: nat, i: nat)
    requires i < |t| < i + |Placeholder(e, n)| && Occurs(t + r, i, Placeholder(e, n))
    ensures r != "" && Body(e, r[0]) && t[i] == Marker(e) && forall j :: i < j < |t| ==> Body(e, t[j])
  {
    var pat := Placeholder(e, n);
    PlaceholderShape(e, n);
    OccursChars(t + r, i, pat);
    assert r[0] == (t + r)[i + (|t| - i)] == pat[|t| - i];
    forall j | i < j < |t| ensures Body(e, t[j]) {
      assert t[j] == (t + r)[i + (j - i)] == pat[j - i];
    }
    assert t[i] == (t + r)[i + 0];
  }

  /** Text does not run into a placeholder of the rest. */
  lemma FixedNoStraddle(e: Engine, t: string, r: string, n: nat)
    requires StartsStop(e, r) || Stopped(e, t)
    ensures NoStraddle(t, r, Placeholder(e, n))
  {
    var pat := Placeholder(e, n);
    forall i: nat | i < |t| && Occurs(t + r, i, pat) ensures i + |pat| <= |t| {
      hide Placeholder;
      hide Occurs;
      if i + |pat| > |t| {
        StraddleReaches(e, t, r, n, i);
      }
    }
  }

  /** Digits at the start of digits and something else are a prefix of them. */
  lemma DigitsAreFirst(dk: string, tail: string, dn: string)
    requires (tail == "" || !IsDigit(tail[0])) && Occurs(dk + tail, 0, dn)
    requires forall i :: 0 <= i < |dn| ==> IsDigit(dn[i])
    ensures |dn| <= |dk| && Number(dn) <= Number(dk)
  {
    if |dn| > |dk| {
      DigitReached(dk, tail, dn);
    } else {
      OccursChars(dk + tail, 0, dn);
      assert dk[..|dn|] == dn;
      PrefixIsSmaller(dk, |dn|);
    }
  }

  lemma DigitReached(dk: string, tail: string, dn: string)
    requires Occurs(dk + tail, 0, dn) && |dn| > |dk| && forall i :: 0 <= i < |dn| ==> IsDigit(dn[i])
    ensures tail != "" && IsDigit(tail[0])
  {
    OccursChars(dk + tail, 0, dn);
    assert tail[0] == dn[|dk|];
  }

  /** The fixed characters before and after a placeholder's number. */
  function Before(e: Engine): string {
    match e case Postgres => "$" case Mssql => "@P" case _ => "?"
  }

  function After(e: Engine): string {
    if e == Postgres then "::text::" else ""
  }

  lemma PlaceholderParts(e: Engine, n: nat)
    ensures Placeholder(e, n) == Before(e) + Dec(n) + After(e)
  {
    assert Dec(n) + "" == Dec(n);
  }

  /** What follows placeholder `k` cannot make it read as a higher one. */
  lemma HoleIsNotAnother(e: Engine, k: nat, n: nat, r: string)
    requires k < n && (e == Postgres || r == "" || !IsDigit(r[0]))
    ensures !Occurs(Placeholder(e, k) + r, 0, Placeholder(e, n))
  {
    hide *;
    var (a, b) := (Placeholder(e, k), Placeholder(e, n));
    var tail := After(e) + r;
    PlaceholderThen(e, k, r);
    PlaceholderParts(e, n);
    DecIsNumber(k);
    DecIsNumber(n);
    TailStops(e, r);
    if Occurs(a + r, 0, b) {
      NumberOccurs(Before(e), Dec(k) + tail, Dec(n), After(e));
      DigitsAreFirst(Dec(k), tail, Dec(n));
    }
  }

  lemma PlaceholderThen(e: Engine, k: nat, r: string)
    ensures Placeholder(e, k) + r == Before(e) + (Dec(k) + (After(e) + r))
  {
    PlaceholderParts(e, k);
    hide *;
    assert Before(e) + Dec(k) + After(e) + r == Before(e) + (Dec(k) + (After(e) + r));
  }

  lemma TailStops(e: Engine, r: string)
    requires e == Postgres || r == "" || !IsDigit(r[0])
    ensures After(e) + r == "" || !IsDigit((After(e) + r)[0])
  {
  }

  lemma NumberOccurs(before: string, rest: string, dn: string, after: string)
    requires Occurs(before + rest, 0, before + dn + after)
    ensures Occurs(rest, 0, dn)
  {
    var (s, b) := (before + rest, before + dn + after);
    OccursChars(s, 0, b);
    forall i | 0 <= i < |dn| ensures rest[i] == dn[i] {
      assert s[0 + (|before| + i)] == b[|before| + i];
    }
    assert rest[0..0 + |dn|] == dn;
  }

  lemma NoMarkerNoOccurrence(e: Engine, t: string, n: nat, i: nat)
    requires i < |t| && t[i] != Marker(e)
    ensures !Occurs(t, i, Placeholder(e, n))
  {
    PlaceholderShape(e, n);
    if Occurs(t, i, Placeholder(e, n)) {
      OccursChars(t, i, Placeholder(e, n));
    }
  }

  lemma {:induction false} NoMarkerNoChange(e: Engine, t: string, n: nat, rep: string)
    requires forall i :: 0 <= i < |t| ==> t[i] != Marker(e)
    ensures Placeholder(e, n) != "" && Replace(t, Placeholder(e, n), rep) == t
    decreases |t|
  {
    PlaceholderShape(e, n);
    if t != "" {
      NoMarkerNoOccurrence(e, t, n, 0);
      ReplaceNotHere(t, Placeholder(e, n), rep);
      NoMarkerNoChange(e, t[1..], n, rep);
      assert t == [t[0]] + t[1..];
      hide Replace;
    }
  }

  lemma TailIsStopped(e: Engine, k: nat)
    ensures Placeholder(e, k) != "" && Stopped(e, Placeholder(e, k)[1..])
    ensures forall i :: 0 <= i < |Placeholder(e, k)[1..]| ==> Placeholder(e, k)[1..][i] != Marker(e)
  {
    PlaceholderShape(e, k);
    var a := Placeholder(e, k);
    assert forall i :: 0 <= i < |a[1..]| ==> a[1..][i] == a[i + 1];
  }

  lemma HoleFilled(e: Engine, n: nat, r: string, rep: string)
    ensures Placeholder(e, n) != ""
    ensures Replace(Placeholder(e, n) + r, Placeholder(e, n), rep) == rep + Replace(r, Placeholder(e, n), rep)
  {
    PlaceholderShape(e, n);
    var b := Placeholder(e, n);
    hide Placeholder;
    hide Replace;
    assert (b + r)[0..0 + |b|] == b && (b + r)[|b|..] == r;
    ReplaceHere(b + r, b, rep);
  }

  lemma HoleKept(e: Engine, k: nat, n: nat, r: string, rep: string)
    requires k < n && (e == Postgres || r == "" || !IsDigit(r[0]))
    ensures Placeholder(e, n) != ""
    ensures Replace(Placeholder(e, k) + r, Placeholder(e, n), rep) == Placeholder(e, k) + Replace(r, Placeholder(e, n), rep)
  {
    hide *;
    HoleIsNotAnother(e, k, n, r);
    TailIsStopped(e, k);
    PlaceholderShape(e, n);
    var (a, b) := (Placeholder(e, k), Placeholder(e, n));
    HeadAndRest(a, r);
    ReplaceNotHere(a + r, b, rep);
    FixedNoStraddle(e, a[1..], r, n);
    ReplaceSplits(a[1..], r, b, rep);
    NoMarkerNoChange(e, a[1..], n, rep);
    ConcatAssoc([a[0]], a[1..], Replace(r, b, rep));
  }

  /** Placeholder `n` turns into its value; lower ones stay. */
  lemma HoleReplaced(e: Engine, k: nat, n: nat, r: string, rep: string)
    requires k <= n && (e == Postgres || r == "" || !IsDigit(r[0]))
    ensures Placeholder(e, n) != ""
    ensures Replace(Placeholder(e, k) + r, Placeholder(e, n), rep) ==
            (if k == n then rep else Placeholder(e, k)) + Replace(r, Placeholder(e, n), rep)
  {
    hide *;
    if k == n {
      HoleFilled(e, n, r, rep);
    } else {
      HoleKept(e, k, n, r, rep);
    }
  }

  /** One round of `preview` on pieces: placeholder `n` becomes text. */
  function Filled(e: Engine, ps: seq<Piece>, n: nat, rep: string): seq<Piece> {
    if ps == [] then [] else [FilledPiece(e, ps[0], n, rep)] + Filled(e, ps[1..], n, rep)
  }

  function FilledPiece(e: Engine, p: Piece, n: nat, rep: string): Piece {
    PlaceholderShape(e, n);
    match p
    case Fixed(t) => Fixed(Replace(t, Placeholder(e, n), rep))
    case Hole(k) => if k == n then Fixed(rep) else p
  }

  /** A value as shown: not empty, starting with no character of a
      placeholder, and every marker in it followed by a quote. */
  ghost predicate ValueLike(e: Engine, rep: string) {
    rep != "" && !Body(e, rep[0]) && !IsDigit(rep[0]) && rep[0] != Marker(e) && Stopped(e, rep)
  }

  lemma ShownIsValueLike(e: Engine, p: Param)
    ensures ValueLike(e, Shown(e, p))
  {
    var v := Shown(e, p);
    match p
    case NullParam =>
      assert forall i :: 0 <= i < |v| ==> v[i] != Marker(e);
    case TextParam(t) =>
      var q := |Literal(e, p)| - 1;
      assert v[q] == '\'';
      forall i | 0 <= i < |v| && v[i] == Marker(e) ensures StoppedAfter(e, v, i) {
        assert i < q;
      }
  }

  /** Replacing does not change whether text starts with a stop. */
  lemma ReplaceStart(e: Engine, s: string, n: nat, rep: string)
    requires ValueLike(e, rep)
    ensures Placeholder(e, n) != ""
    ensures var t := Replace(s, Placeholder(e, n), rep);
            (t == "" <==> s == "") && (s != "" ==> t[0] == s[0] || (s[0] == Marker(e) && t[0] == rep[0]))
  {
    PlaceholderShape(e, n);
    var pat := Placeholder(e, n);
    hide Placeholder;
    if s != "" {
      if Occurs(s, 0, pat) {
        OccursChars(s, 0, pat);
        assert s[0] == pat[0];
        ReplaceHere(s, pat, rep);
      } else {
        ReplaceNotHere(s, pat, rep);
      }
    }
  }

  ghost predicate HasStop(e: Engine, s: string) {
    exists j :: 0 <= j < |s| && !Body(e, s[j])
  }

  lemma StopLater(e: Engine, c: char, s: string)
    requires HasStop(e, s)
    ensures HasStop(e, [c] + s)
  {
    var j :| 0 <= j < |s| && !Body(e, s[j]);
    assert ([c] + s)[j + 1] == s[j];
  }

  lemma StopInRest(e: Engine, s: string)
    requires s != "" && HasStop(e, s) && Body(e, s[0])
    ensures HasStop(e, s[1..])
  {
    var j :| 0 <= j < |s| && !Body(e, s[j]);
    assert s[1..][j - 1] == s[j];
  }

  lemma {:induction false} ReplaceKeepsStop(e: Engine, t: string, n: nat, rep: string)
    requires ValueLike(e, rep) && HasStop(e, t)
    ensures Placeholder(e, n) != "" && HasStop(e, Replace(t, Placeholder(e, n), rep))
    decreases |t|
  {
    PlaceholderShape(e, n);
    var pat := Placeholder(e, n);
    hide Placeholder;
    if Occurs(t, 0, pat) {
      ReplaceHere(t, pat, rep);
      assert Replace(t, pat, rep)[0] == rep[0];
    } else {
      ReplaceNotHere(t, pat, rep);
      if Body(e, t[0]) {
        StopInRest(e, t);
        ReplaceKeepsStop(e, t[1..], n, rep);
        StopLater(e, t[0], Replace(t[1..], pat, rep));
      } else {
        assert Replace(t, pat, rep)[0] == t[0];
      }
    }
  }

  lemma StoppedPush(e: Engine, c: char, s: string)
    requires Stopped(e, s) && (c == Marker(e) ==> HasStop(e, s))
    ensures Stopped(e, [c] + s)
  {
    var t := [c] + s;
    forall i | 0 <= i < |t| && t[i] == Marker(e) ensures StoppedAfter(e, t, i) {
      if i == 0 {
        var j :| 0 <= j < |s| && !Body(e, s[j]);
        assert t[j + 1] == s[j];
      } else {
        assert StoppedAfter(e, s, i - 1);
        var j :| i - 1 < j < |s| && !Body(e, s[j]);
        assert t[j + 1] == s[j];
      }
    }
  }

  lemma StopFollows(e: Engine, t: string)
    requires t != "" && Stopped(e, t) && t[0] == Marker(e)
    ensures HasStop(e, t[1..])
  {
    assert StoppedAfter(e, t, 0);
    var j :| 0 < j < |t| && !Body(e, t[j]);
    assert t[1..][j - 1] == t[j];
  }

  lemma {:induction false} ReplaceStopped(e: Engine, t: string, n: nat, rep: string)
    requires ValueLike(e, rep) && Stopped(e, t)
    ensures Placeholder(e, n) != "" && Stopped(e, Replace(t, Placeholder(e, n), rep))
    decreases |t|
  {
    PlaceholderShape(e, n);
    var pat := Placeholder(e, n);
    if t != "" {
      hide *;
      if Occurs(t, 0, pat) {
        OccursFits(t, pat);
        StoppedTail(e, t, |pat|);
        ReplaceStopped(e, t[|pat|..], n, rep);
        ReplaceHere(t, pat, rep);
        ValueIsStopped(e, rep);
        StoppedJoin(e, rep, Replace(t[|pat|..], pat, rep));
      } else {
        StoppedTail(e, t, 1);
        ReplaceStopped(e, t[1..], n, rep);
        ReplaceNotHere(t, pat, rep);
        if t[0] == Marker(e) {
          StopFollows(e, t);
          ReplaceKeepsStop(e, t[1..], n, rep);
        }
        StoppedPush(e, t[0], Replace(t[1..], pat, rep));
      }
    }
  }

  lemma OccursFits(t: string, pat: string)
    requires Occurs(t, 0, pat)
    ensures |pat| <= |t|
  {
  }

  lemma ValueIsStopped(e: Engine, rep: string)
    requires ValueLike(e, rep)
    ensures Stopped(e, rep)
  {
  }

  lemma StoppedTail(e: Engine, t: string, k: nat)
    requires Stopped(e, t) && k <= |t|
    ensures Stopped(e, t[k..])
  {
    forall i | 0 <= i < |t[k..]| && t[k..][i] == Marker(e) ensures StoppedAfter(e, t[k..], i) {
      assert StoppedAfter(e, t, k + i);
      var j :| k + i < j < |t| && !Body(e, t[j]);
      assert t[k..][j - k] == t[j];
    }
  }

  lemma StoppedJoin(e: Engine, a: string, b: string)
    requires Stopped(e, a) && Stopped(e, b)
    ensures Stopped(e, a + b)
  {
    var s := a + b;
    forall i | 0 <= i < |s| && s[i] == Marker(e) ensures StoppedAfter(e, s, i) {
      if i < |a| {
        assert StoppedAfter(e, a, i);
        var j :| i < j < |a| && !Body(e, a[j]);
        assert s[j] == a[j];
      } else {
        assert StoppedAfter(e, b, i - |a|);
        var j :| i - |a| < j < |b| && !Body(e, b[j]);
        assert s[|a| + j] == b[j];
      }
    }
  }

  /** One round of `preview` on the text is one round on the pieces. */
  lemma {:induction false} RoundOnPieces(e: Engine, ps: seq<Piece>, n: nat, rep: string)
    requires Safe(e, ps) && HolesUpTo(ps, n) && ValueLike(e, rep)
    ensures Placeholder(e, n) != ""
    ensures Replace(Written(e, ps), Placeholder(e, n), rep) == Written(e, Filled(e, ps, n, rep))
    ensures Safe(e, Filled(e, ps, n, rep))
  {
    PlaceholderShape(e, n);
    if ps != [] {
      var rest := ps[1..];
      hide *;
      SafeParts(e, ps);
      HolesTail(ps, n);
      RoundOnPieces(e, rest, n, rep);
      FilledFirst(e, ps, n, rep);
      WrittenFirst(e, ps);
      WrittenFirst(e, Filled(e, ps, n, rep));
      match ps[0]
      case Fixed(t) => FixedRound(e, t, rest, n, rep);
      case Hole(k) => HoleRound(e, k, rest, n, rep);
    } else {
      hide Placeholder;
    }
  }

  lemma SafeParts(e: Engine, ps: seq<Piece>)
    requires Safe(e, ps) && ps != []
    ensures Safe(e, ps[1..]) && SafeEdge(e, ps[0], Written(e, ps[1..]))
  {
  }

  lemma HolesTail(ps: seq<Piece>, n: nat)
    requires HolesUpTo(ps, n) && ps != []
    ensures HolesUpTo(ps[1..], n) && (ps[0].Hole? ==> 1 <= ps[0].n <= n)
  {
  }

  lemma WrittenFirst(e: Engine, ps: seq<Piece>)
    requires ps != []
    ensures Written(e, ps) == PieceText(e, ps[0]) + Written(e, ps[1..])
  {
  }

  lemma FilledFirst(e: Engine, ps: seq<Piece>, n: nat, rep: string)
    requires ps != []
    ensures Filled(e, ps, n, rep) == [FilledPiece(e, ps[0], n, rep)] + Filled(e, ps[1..], n, rep)
  {
  }

  lemma FixedRound(e: Engine, t: string, rest: seq<Piece>, n: nat, rep: string)
    requires ValueLike(e, rep) && SafeEdge(e, Fixed(t), Written(e, rest)) && Placeholder(e, n) != ""
    requires Replace(Written(e, rest), Placeholder(e, n), rep) == Written(e, Filled(e, rest, n, rep))
    requires Safe(e, Filled(e, rest, n, rep))
    ensures Replace(PieceText(e, Fixed(t)) + Written(e, rest), Placeholder(e, n), rep) ==
            PieceText(e, FilledPiece(e, Fixed(t), n, rep)) + Written(e, Filled(e, rest, n, rep))
    ensures Safe(e, [FilledPiece(e, Fixed(t), n, rep)] + Filled(e, rest, n, rep))
  {
    var r := Written(e, rest);
    FixedNoStraddle(e, t, r, n);
    ReplaceSplits(t, r, Placeholder(e, n), rep);
    EdgeKept(e, Fixed(t), r, n, rep);
    assert PieceText(e, Fixed(t)) == t;
    assert PieceText(e, FilledPiece(e, Fixed(t), n, rep)) == Replace(t, Placeholder(e, n), rep);
    SafeAdd(e, FilledPiece(e, Fixed(t), n, rep), Filled(e, rest, n, rep));
  }

  lemma HoleRound(e: Engine, k: nat, rest: seq<Piece>, n: nat, rep: string)
    requires k <= n && ValueLike(e, rep) && SafeEdge(e, Hole(k), Written(e, rest)) && Placeholder(e, n) != ""
    requires Replace(Written(e, rest), Placeholder(e, n), rep) == Written(e, Filled(e, rest, n, rep))
    requires Safe(e, Filled(e, rest, n, rep))
    ensures Replace(PieceText(e, Hole(k)) + Written(e, rest), Placeholder(e, n), rep) ==
            PieceText(e, FilledPiece(e, Hole(k), n, rep)) + Written(e, Filled(e, rest, n, rep))
    ensures Safe(e, [FilledPiece(e, Hole(k), n, rep)] + Filled(e, rest, n, rep))
  {
    HoleReplaced(e, k, n, Written(e, rest), rep);
    EdgeKept(e, Hole(k), Written(e, rest), n, rep);
    assert PieceText(e, Hole(k)) == Placeholder(e, k);
    assert PieceText(e, FilledPiece(e, Hole(k), n, rep)) == if k == n then rep else Placeholder(e, k);
    SafeAdd(e, FilledPiece(e, Hole(k), n, rep), Filled(e, rest, n, rep));
  }

  lemma SafeAdd(e: Engine, p: Piece, ps: seq<Piece>)
    requires Safe(e, ps) && SafeEdge(e, p, Written(e, ps))
    ensures Safe(e, [p] + ps)
  {
    assert ([p] + ps)[1..] == ps;
  }

  /** A round does not make an edge unsafe. */
  lemma EdgeKept(e: Engine, p: Piece, r: string, n: nat, rep: string)
    requires ValueLike(e, rep) && SafeEdge(e, p, r) && Placeholder(e, n) != ""
    ensures SafeEdge(e, FilledPiece(e, p, n, rep), Replace(r, Placeholder(e, n), rep))
  {
    ReplaceStart(e, r, n, rep);
    hide Replace;
    hide Placeholder;
    if p.Fixed? && Stopped(e, p.text) {
      ReplaceStopped(e, p.text, n, rep);
    }
  }

  /** What `preview` makes of pieces: a value goes through the rounds for the
      lower numbers. */
  function Expanded(e: Engine, ps: seq<Piece>, params: seq<Param>, n: nat): string
    requires n <= |params| && HolesUpTo(ps, n)
  {
    if ps == [] then ""
    else ExpandedPiece(e, ps[0], params, n) + Expanded(e, ps[1..], params, n)
  }

  function ExpandedPiece(e: Engine, p: Piece, params: seq<Param>, n: nat): string
    requires n <= |params| && (p.Hole? ==> 1 <= p.n <= n)
  {
    match p
    case Fixed(t) => PreviewFrom(e, t, params, n)
    case Hole(k) => PreviewFrom(e, Shown(e, params[k - 1]), params, k - 1)
  }

  lemma {:induction false} NothingToExpand(e: Engine, ps: seq<Piece>, params: seq<Param>)
    requires HolesUpTo(ps, 0)
    ensures Expanded(e, ps, params, 0) == Written(e, ps)
  {
    if ps != [] {
      assert ps[0].Fixed?;
      NothingToExpand(e, ps[1..], params);
    }
  }

  lemma {:induction false} FilledHoles(e: Engine, ps: seq<Piece>, n: nat, rep: string)
    requires n >= 1 && HolesUpTo(ps, n)
    ensures HolesUpTo(Filled(e, ps, n, rep), n - 1)
  {
    if ps != [] {
      FilledHoles(e, ps[1..], n, rep);
      FilledFirst(e, ps, n, rep);
      hide Filled;
    }
  }

  lemma {:induction false} ExpandRound(e: Engine, ps: seq<Piece>, params: seq<Param>, n: nat)
    requires 1 <= n <= |params| && HolesUpTo(ps, n)
    ensures HolesUpTo(Filled(e, ps, n, Shown(e, params[n - 1])), n - 1)
    ensures Expanded(e, Filled(e, ps, n, Shown(e, params[n - 1])), params, n - 1) == Expanded(e, ps, params, n)
  {
    var rep := Shown(e, params[n - 1]);
    FilledHoles(e, ps, n, rep);
    if ps != [] {
      hide PreviewFrom;
      hide Replace;
      hide Placeholder;
      ExpandRound(e, ps[1..], params, n);
      FilledFirst(e, ps, n, rep);
      PieceRound(e, ps[0], params, n);
      assert Filled(e, ps, n, rep)[1..] == Filled(e, ps[1..], n, rep);
      hide ExpandedPiece;
      hide FilledPiece;
      hide Filled;
    }
  }

  lemma PieceRound(e: Engine, p: Piece, params: seq<Param>, n: nat)
    requires 1 <= n <= |params| && (p.Hole? ==> 1 <= p.n <= n)
    ensures var q := FilledPiece(e, p, n, Shown(e, params[n - 1]));
            (q.Hole? ==> 1 <= q.n <= n - 1) && ExpandedPiece(e, q, params, n - 1) == ExpandedPiece(e, p, params, n)
  {
    PlaceholderShape(e, n);
    hide Placeholder;
    hide Replace;
    hide Shown;
  }

  /** `preview` never takes one placeholder for another, nor reads one across
      the edge of a piece. */
  lemma {:induction false} PreviewIsExpansion(e: Engine, ps: seq<Piece>, params: seq<Param>, n: nat)
    requires n <= |params| && Safe(e, ps) && HolesUpTo(ps, n)
    ensures PreviewFrom(e, Written(e, ps), params, n) == Expanded(e, ps, params, n)
    decreases n
  {
    hide *;
    if n == 0 {
      NothingToExpand(e, ps, params);
      PreviewDone(e, Written(e, ps), params);
    } else {
      var rep := Shown(e, params[n - 1]);
      ShownIsValueLike(e, params[n - 1]);
      RoundOnPieces(e, ps, n, rep);
      ExpandRound(e, ps, params, n);
      PreviewIsExpansion(e, Filled(e, ps, n, rep), params, n - 1);
      PreviewRound(e, Written(e, ps), params, n);
    }
  }

  lemma PreviewDone(e: Engine, s: string, params: seq<Param>)
    ensures PreviewFrom(e, s, params, 0) == s
  {
  }

  lemma PreviewRound(e: Engine, s: string, params: seq<Param>, n: nat)
    requires 1 <= n <= |params|
    ensures Placeholder(e, n) != ""
    ensures PreviewFrom(e, s, params, n) ==
            PreviewFrom(e, Replace(s, Placeholder(e, n), Shown(e, params[n - 1])), params, n - 1)
  {
    PlaceholderShape(e, n);
    hide Placeholder;
    hide Replace;
    hide Shown;
  }

  ghost predicate Contains(s: string, pat: string) {
    exists i: nat :: Occurs(s, i, pat)
  }

  /** No placeholder up to `n` can be read in `s`. */
  ghost predicate Inert(e: Engine, s: string, n: nat) {
    forall k: nat :: 1 <= k <= n ==> !Contains(s, Placeholder(e, k))
  }

  /** `b` departs from `a` first at a marker. */
  predicate Departs(m: char, a: string, b: string) {
    a != "" && b != "" && ((a[0] == m && b[0] != m) || (a[0] == b[0] && Departs(m, a[1..], b[1..])))
  }

  lemma {:induction false} DepartingDiffers(m: char, a: string)
    ensures !Departs(m, a, a)
  {
    if a != "" {
      DepartingDiffers(m, a[1..]);
    }
  }

  lemma DepartLater(m: char, c: char, a: string, b: string)
    requires Departs(m, a, b)
    ensures Departs(m, [c] + a, [c] + b)
  {
    assert ([c] + a)[1..] == a && ([c] + b)[1..] == b;
  }

  lemma {:induction false} DepartAfter(m: char, t: string, a: string, b: string)
    requires Departs(m, a, b)
    ensures Departs(m, t + a, t + b)
  {
    if t == "" {
      assert t + a == a && t + b == b;
    } else {
      DepartAfter(m, t[1..], a, b);
      DepartLater(m, t[0], t[1..] + a, t[1..] + b);
      hide Departs;
      assert t + a == [t[0]] + (t[1..] + a) && t + b == [t[0]] + (t[1..] + b);
    }
  }

  lemma {:induction false} DepartBefore(m: char, a: string, b: string, r: string, s: string)
    requires Departs(m, a, b)
    ensures Departs(m, a + r, b + s)
  {
    assert (a + r)[1..] == a[1..] + r && (b + s)[1..] == b[1..] + s;
    if a[0] == b[0] {
      DepartBefore(m, a[1..], b[1..], r, s);
    }
  }

  /** Further rounds do not undo a departure. */
  lemma {:induction false} ReplaceKeepsDeparture(e: Engine, t: string, s: string, n: nat, rep: string)
    requires ValueLike(e, rep) && Departs(Marker(e), t, s)
    ensures Placeholder(e, n) != "" && Departs(Marker(e), t, Replace(s, Placeholder(e, n), rep))
  {
    PlaceholderShape(e, n);
    var pat := Placeholder(e, n);
    hide Placeholder;
    if Occurs(s, 0, pat) {
      OccursChars(s, 0, pat);
      assert s[0 + 0] == pat[0];
      ReplaceHere(s, pat, rep);
    } else {
      ReplaceNotHere(s, pat, rep);
      hide Replace;
      if t[0] == s[0] {
        ReplaceKeepsDeparture(e, t[1..], s[1..], n, rep);
      }
    }
  }

  lemma {:induction false} RoundsKeepDeparture(e: Engine, t: string, s: string, params: seq<Param>, n: nat)
    requires n <= |params| && Departs(Marker(e), t, s)
    ensures Departs(Marker(e), t, PreviewFrom(e, s, params, n))
    decreases n
  {
    if n > 0 {
      ShownIsValueLike(e, params[n - 1]);
      ReplaceKeepsDeparture(e, t, s, n, Shown(e, params[n - 1]));
      RoundsKeepDeparture(e, t, Replace(s, Placeholder(e, n), Shown(e, params[n - 1])), params, n - 1);
      hide *;
      PreviewRound(e, s, params, n);
    }
  }

  lemma DepartsHere(e: Engine, s: string, n: nat, rep: string)
    requires ValueLike(e, rep) && Occurs(s, 0, Placeholder(e, n))
    ensures Placeholder(e, n) != "" && Departs(Marker(e), s, Replace(s, Placeholder(e, n), rep))
  {
    PlaceholderShape(e, n);
    var pat := Placeholder(e, n);
    hide Placeholder;
    hide Replace;
    OccursChars(s, 0, pat);
    assert s[0 + 0] == pat[0];
    ReplaceHere(s, pat, rep);
  }

  lemma OccursLater(s: string, i: nat, pat: string)
    requires pat != "" && Occurs(s, i, pat) && !Occurs(s, 0, pat)
    ensures i > 0 && s != "" && Occurs(s[1..], i - 1, pat)
  {
    assert i > 0 ==> s[1..][i - 1..i - 1 + |pat|] == s[i..i + |pat|];
  }

  lemma {:induction false} ReplaceDeparts(e: Engine, s: string, n: nat, rep: string, i: nat)
    requires ValueLike(e, rep) && Occurs(s, i, Placeholder(e, n))
    ensures Placeholder(e, n) != "" && Departs(Marker(e), s, Replace(s, Placeholder(e, n), rep))
    decreases i
  {
    hide *;
    PlaceholderShape(e, n);
    var pat := Placeholder(e, n);
    if Occurs(s, 0, pat) {
      DepartsHere(e, s, n, rep);
    } else {
      OccursLater(s, i, pat);
      ReplaceNotHere(s, pat, rep);
      ReplaceDeparts(e, s[1..], n, rep, i - 1);
      DepartLater(Marker(e), s[0], s[1..], Replace(s[1..], pat, rep));
      assert s == [s[0]] + s[1..];
    }
  }

  lemma {:induction false} NothingToReplace(s: string, pat: string, rep: string)
    requires pat != "" && !Contains(s, pat)
    ensures Replace(s, pat, rep) == s
  {
    if s != "" {
      assert !Occurs(s, 0, pat);
      ReplaceNotHere(s, pat, rep);
      hide Replace;
      forall i: nat ensures !Occurs(s[1..], i, pat) {
        assert i + |pat| <= |s[1..]| ==> s[1..][i..i + |pat|] == s[i + 1..i + 1 + |pat|];
        assert !Occurs(s, i + 1, pat);
      }
      NothingToReplace(s[1..], pat, rep);
      assert s == [s[0]] + s[1..];
    }
  }

  /** Exactly when `preview` leaves a text alone. */
  lemma {:induction false} KeptIffInert(e: Engine, s: string, params: seq<Param>, n: nat)
    requires n <= |params|
    ensures Inert(e, s, n) ==> PreviewFrom(e, s, params, n) == s
    ensures !Inert(e, s, n) ==> Departs(Marker(e), s, PreviewFrom(e, s, params, n))
    decreases n
  {
    if n > 0 {
      PlaceholderShape(e, n);
      var rep := Shown(e, params[n - 1]);
      InertStep(e, s, n);
      PreviewRound(e, s, params, n);
      ShownIsValueLike(e, params[n - 1]);
      hide *;
      if Contains(s, Placeholder(e, n)) {
        ContainedDeparts(e, s, n, rep);
        RoundsKeepDeparture(e, s, Replace(s, Placeholder(e, n), rep), params, n - 1);
      } else {
        NothingToReplace(s, Placeholder(e, n), rep);
        KeptIffInert(e, s, params, n - 1);
      }
    }
  }

  lemma InertStep(e: Engine, s: string, n: nat)
    requires n >= 1
    ensures Inert(e, s, n) <==> (Inert(e, s, n - 1) && !Contains(s, Placeholder(e, n)))
  {
    hide Placeholder;
    hide Contains;
  }

  lemma ContainedDeparts(e: Engine, s: string, n: nat, rep: string)
    requires ValueLike(e, rep) && Contains(s, Placeholder(e, n))
    ensures Placeholder(e, n) != "" && Departs(Marker(e), s, Replace(s, Placeholder(e, n), rep))
  {
    hide Placeholder;
    hide Replace;
    hide Occurs;
    var i: nat :| Occurs(s, i, Placeholder(e, n));
    ReplaceDeparts(e, s, n, rep, i);
  }

  /** No text of the statement reads as a placeholder, and no value as one
      with a lower number than its own. */
  ghost predicate NothingReread(e: Engine, ps: seq<Piece>, params: seq<Param>)
    requires HolesUpTo(ps, |params|)
  {
    forall i :: 0 <= i < |ps| ==> PieceInert(e, ps[i], params)
  }

  ghost predicate PieceInert(e: Engine, p: Piece, params: seq<Param>)
    requires p.Hole? ==> 1 <= p.n <= |params|
  {
    match p
    case Fixed(t) => Inert(e, t, |params|)
    case Hole(k) => Inert(e, Shown(e, params[k - 1]), k - 1)
  }

  function SubstitutedPiece(e: Engine, p: Piece, params: seq<Param>): string
    requires p.Hole? ==> 1 <= p.n <= |params|
  {
    match p
    case Fixed(t) => t
    case Hole(k) => Shown(e, params[k - 1])
  }

  lemma PieceKeptIffInert(e: Engine, p: Piece, params: seq<Param>)
    requires p.Hole? ==> 1 <= p.n <= |params|
    ensures PieceInert(e, p, params) ==> ExpandedPiece(e, p, params, |params|) == SubstitutedPiece(e, p, params)
    ensures !PieceInert(e, p, params) ==>
              Departs(Marker(e), SubstitutedPiece(e, p, params), ExpandedPiece(e, p, params, |params|))
  {
    match p
    case Fixed(t) =>
      KeptIffInert(e, t, params, |params|);
      hide Inert;
      hide PreviewFrom;
    case Hole(k) =>
      KeptIffInert(e, Shown(e, params[k - 1]), params, k - 1);
      hide Inert;
      hide PreviewFrom;
      hide Shown;
  }

  lemma {:induction false} ExpansionIffInert(e: Engine, ps: seq<Piece>, params: seq<Param>)
    requires HolesUpTo(ps, |params|)
    ensures NothingReread(e, ps, params) ==> Expanded(e, ps, params, |params|) == Simultaneous(e, ps, params)
    ensures !NothingReread(e, ps, params) ==>
              Departs(Marker(e), Simultaneous(e, ps, params), Expanded(e, ps, params, |params|))
  {
    if ps != [] {
      var (p, rest) := (ps[0], ps[1..]);
      hide *;
      HolesTail(ps, |params|);
      PieceKeptIffInert(e, p, params);
      ExpansionIffInert(e, rest, params);
      RereadParts(e, ps, params);
      ExpansionFirst(e, ps, params);
      var (a, b) := (SubstitutedPiece(e, p, params), ExpandedPiece(e, p, params, |params|));
      var (r, s) := (Simultaneous(e, rest, params), Expanded(e, rest, params, |params|));
      if !PieceInert(e, p, params) {
        DepartBefore(Marker(e), a, b, r, s);
      } else if !NothingReread(e, rest, params) {
        DepartAfter(Marker(e), a, r, s);
      }
    }
  }

  lemma RereadParts(e: Engine, ps: seq<Piece>, params: seq<Param>)
    requires ps != [] && HolesUpTo(ps, |params|)
    ensures HolesUpTo(ps[1..], |params|)
    ensures NothingReread(e, ps, params) <==> PieceInert(e, ps[0], params) && NothingReread(e, ps[1..], params)
  {
    hide PieceInert;
    if PieceInert(e, ps[0], params) && NothingReread(e, ps[1..], params) {
      forall i | 0 <= i < |ps| ensures PieceInert(e, ps[i], params) {
        assert i > 0 ==> ps[i] == ps[1..][i - 1];
      }
    }
    if NothingReread(e, ps, params) {
      forall i | 0 <= i < |ps[1..]| ensures PieceInert(e, ps[1..][i], params) {
        assert ps[1..][i] == ps[i + 1];
      }
    }
  }

  lemma ExpansionFirst(e: Engine, ps: seq<Piece>, params: seq<Param>)
    requires ps != [] && HolesUpTo(ps, |params|)
    ensures HolesUpTo(ps[1..], |params|)
    ensures Expanded(e, ps, params, |params|) ==
            ExpandedPiece(e, ps[0], params, |params|) + Expanded(e, ps[1..], params, |params|)
    ensures Simultaneous(e, ps, params) == SubstitutedPiece(e, ps[0], params) + Simultaneous(e, ps[1..], params)
  {
    hide Shown;
    hide PreviewFrom;
  }

  /** `preview` substitutes all values at once exactly when nothing in the
      statement or in a value can be read as a placeholder again. */
  lemma SimultaneousIff(e: Engine, ps: seq<Piece>, params: seq<Param>)
    requires Safe(e, ps) && HolesUpTo(ps, |params|)
    ensures Preview(e, Written(e, ps), params) == Simultaneous(e, ps, params) <==> NothingReread(e, ps, params)
  {
    PreviewIsExpansion(e, ps, params, |params|);
    ExpansionIffInert(e, ps, params);
    DepartingDiffers(Marker(e), Simultaneous(e, ps, params));
    hide Expanded;
    hide Simultaneous;
    hide NothingReread;
    hide PreviewFrom;
    hide Departs;
  }

  /** No marker at all: nothing can be read again. */
  predicate Plain(e: Engine, s: string) {
    forall i :: 0 <= i < |s| ==> s[i] != Marker(e)
  }

  lemma PlainIsInert(e: Engine, s: string, n: nat)
    requires Plain(e, s)
    ensures Inert(e, s, n)
  {
    forall k: nat, i: nat ensures !Occurs(s, i, Placeholder(e, k)) {
      PlaceholderShape(e, k);
      if i < |s| {
        NoMarkerNoOccurrence(e, s, k, i);
      }
    }
  }

  predicate PlainParam(e: Engine, p: Param) {
    p.TextParam? ==> Plain(e, p.text)
  }

  lemma {:induction false} EscapedPlain(e: Engine, t: string)
    requires Plain(e, t)
    ensures Plain(e, Escaped(t))
  {
    if t != "" {
      assert forall i :: 0 <= i < |t[1..]| ==> t[1..][i] == t[i + 1];
      EscapedPlain(e, t[1..]);
    }
  }

  lemma ShownPlain(e: Engine, p: Param)
    requires PlainParam(e, p)
    ensures Plain(e, Shown(e, p))
  {
    if p.TextParam? {
      EscapedPlain(e, p.text);
    }
  }

  /** Without marker characters, the substitution is simultaneous. */
  lemma PlainIsSimultaneous(e: Engine, ps: seq<Piece>, params: seq<Param>)
    requires Safe(e, ps) && HolesUpTo(ps, |params|)
    requires forall i :: 0 <= i < |ps| && ps[i].Fixed? ==> Plain(e, ps[i].text)
    requires forall k :: 0 <= k < |params| ==> PlainParam(e, params[k])
    ensures Preview(e, Written(e, ps), params) == Simultaneous(e, ps, params)
  {
    SimultaneousIff(e, ps, params);
    hide *;
    forall i | 0 <= i < |ps| ensures (ps[i].Hole? ==> 1 <= ps[i].n <= |params|) && PieceInert(e, ps[i], params) {
      PlainPiece(e, ps, params, i);
    }
    RereadAll(e, ps, params);
  }

  lemma PlainPiece(e: Engine, ps: seq<Piece>, params: seq<Param>, i: nat)
    requires i < |ps| && HolesUpTo(ps, |params|)
    requires ps[i].Fixed? ==> Plain(e, ps[i].text)
    requires forall k :: 0 <= k < |params| ==> PlainParam(e, params[k])
    ensures (ps[i].Hole? ==> 1 <= ps[i].n <= |params|) && PieceInert(e, ps[i], params)
  {
    hide Inert;
    hide Plain;
    hide PlainParam;
    hide Shown;
    match ps[i]
    case Fixed(t) => PlainIsInert(e, t, |params|);
    case Hole(k) =>
      ShownPlain(e, params[k - 1]);
      PlainIsInert(e, Shown(e, params[k - 1]), k - 1);
  }

  lemma RereadAll(e: Engine, ps: seq<Piece>, params: seq<Param>)
    requires HolesUpTo(ps, |params|)
    requires forall i :: 0 <= i < |ps| ==>
      (ps[i].Hole? ==> 1 <= ps[i].n <= |params|) && PieceInert(e, ps[i], params)
    ensures NothingReread(e, ps, params)
  {
    hide PieceInert;
  }

  /** A value that reads like a lower placeholder is substituted into. */
  lemma ValueIsReread()
    ensures var (ps, params) := ([Hole(1), Fixed(", "), Hole(2)], [TextParam("x"), TextParam("?1")]);
            Safe(Sqlite, ps) && HolesUpTo(ps, 2) &&
            Preview(Sqlite, Written(Sqlite, ps), params) != Simultaneous(Sqlite, ps, params)
  {
    var (ps, params) := ([Hole(1), Fixed(", "), Hole(2)], [TextParam("x"), TextParam("?1")]);
    ExampleIsSafe(ps);
    SimultaneousIff(Sqlite, ps, params);
    ExampleValue(params[1]);
    hide *;
    assert !PieceInert(Sqlite, ps[2], params) by {
      ExampleNotInert(ps[2], params);
    }
    assert !NothingReread(Sqlite, ps, params) by {
      RereadNone(Sqlite, ps, params, 2);
    }
  }

  lemma RereadNone(e: Engine, ps: seq<Piece>, params: seq<Param>, i: nat)
    requires HolesUpTo(ps, |params|) && i < |ps| && !PieceInert(e, ps[i], params)
    ensures !NothingReread(e, ps, params)
  {
    hide PieceInert;
  }

  lemma ExampleIsSafe(ps: seq<Piece>)
    requires ps == [Hole(1), Fixed(", "), Hole(2)]
    ensures Safe(Sqlite, ps) && HolesUpTo(ps, 2)
  {
    assert Safe(Sqlite, []);
    SafeAdd(Sqlite, ps[2], []);
    PlainIsStopped(Sqlite, ", ");
    SafeAdd(Sqlite, ps[1], [ps[2]]);
    SafeAdd(Sqlite, ps[0], [ps[1], ps[2]]);
    assert ps == [ps[0]] + ([ps[1]] + ([ps[2]] + []));
  }

  lemma ExampleValue(p: Param)
    requires p == TextParam("?1")
    ensures Contains(Shown(Sqlite, p), Placeholder(Sqlite, 1))
  {
    assert "?1"[1..] == "1" && "1"[1..] == "";
    assert Escaped("1") == "1";
    assert Escaped("?1") == "?1";
    var v := Shown(Sqlite, p);
    assert v == "'?1'" && Placeholder(Sqlite, 1) == "?1";
    assert v[1..1 + 2] == "?1";
    assert Occurs(v, 1, Placeholder(Sqlite, 1));
  }

  lemma ExampleNotInert(p: Piece, params: seq<Param>)
    requires p == Hole(2) && |params| == 2 && Contains(Shown(Sqlite, params[1]), Placeholder(Sqlite, 1))
    ensures !PieceInert(Sqlite, p, params)
  {
    hide Contains;
    hide Placeholder;
    hide Shown;
  }

  lemma PlainIsStopped(e: Engine, t: string)
    requires Plain(e, t)
    ensures Stopped(e, t)
  {
  }
}
