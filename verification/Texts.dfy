/** Splitting and joining text. */
module Texts {
  /** White space as the standard library's `trim` sees it: the characters
      with the Unicode property White_Space. */
  predicate IsSpace(c: char) {
    '\t' <= c <= '\r' || c == ' ' || c == '\U{85}' || c == '\U{A0}' || c == '\U{1680}' ||
    '\U{2000}' <= c <= '\U{200A}' || c == '\U{2028}' || c == '\U{2029}' || c == '\U{202F}' || c == '\U{205F}' ||
    c == '\U{3000}'
  }

  /** `trim().is_empty()`. */
  predicate Blank(text: string) {
    forall i :: 0 <= i < |text| ==> IsSpace(text[i])
  }

  /** `parts.join(sep)`. */
  function Join(sep: string, parts: seq<string>): string {
    if parts == [] then "" else if |parts| == 1 then parts[0] else parts[0] + sep + Join(sep, parts[1..])
  }

  /** `s.split(sep)`. */
  function SplitOn(sep: char, s: string): (parts: seq<string>)
    ensures parts != []
  {
    if s == "" then [""]
    else
      var rest := SplitOn(sep, s[1..]);
      if s[0] == sep then [""] + rest else [[s[0]] + rest[0]] + rest[1..]
  }

  lemma {:induction false} SplitWhole(sep: char, p: string)
    requires sep !in p
    ensures SplitOn(sep, p) == [p]
  {
    if p != "" {
      SplitWhole(sep, p[1..]);
      assert p == [p[0]] + p[1..];
    }
  }

  /** Put a character in front of the first part. */
  function Prefixed(c: char, parts: seq<string>): seq<string>
    requires parts != []
  {
    [[c] + parts[0]] + parts[1..]
  }

  lemma SplitStep(sep: char, s: string)
    requires s != ""
    ensures SplitOn(sep, s) == if s[0] == sep then [""] + SplitOn(sep, s[1..]) else Prefixed(s[0], SplitOn(sep, s[1..]))
  {
  }

  lemma PrefixedJoins(c: char, a: seq<string>, b: seq<string>)
    requires a != []
    ensures Prefixed(c, a + b) == Prefixed(c, a) + b
  {
  }

  lemma AfterFirst(a: string, sep: char, b: string)
    requires a != ""
    ensures (a + [sep] + b)[0] == a[0] && (a + [sep] + b)[1..] == a[1..] + [sep] + b
  {
  }

  lemma SplitFirst(sep: char, b: string)
    ensures SplitOn(sep, "" + [sep] + b) == SplitOn(sep, "") + SplitOn(sep, b)
  {
    assert ("" + [sep] + b)[1..] == b;
    SplitStep(sep, "" + [sep] + b);
    assert SplitOn(sep, "") == [""];
    hide SplitOn;
  }

  /** A separator splits; each side splits on its own. */
  lemma {:induction false} SplitAt(sep: char, a: string, b: string)
    ensures SplitOn(sep, a + [sep] + b) == SplitOn(sep, a) + SplitOn(sep, b)
  {
    hide *;
    if a == "" {
      SplitFirst(sep, b);
    } else {
      AfterFirst(a, sep, b);
      SplitStep(sep, a + [sep] + b);
      SplitStep(sep, a);
      SplitAt(sep, a[1..], b);
      if a[0] == sep {
        assert [""] + (SplitOn(sep, a[1..]) + SplitOn(sep, b)) == [""] + SplitOn(sep, a[1..]) + SplitOn(sep, b);
      } else {
        PrefixedJoins(a[0], SplitOn(sep, a[1..]), SplitOn(sep, b));
      }
    }
  }

  lemma {:induction false} SplitJoin(sep: char, parts: seq<string>)
    requires parts != [] && forall i :: 0 <= i < |parts| ==> sep !in parts[i]
    ensures SplitOn(sep, Join([sep], parts)) == parts
  {
    SplitWhole(sep, parts[0]);
    if |parts| > 1 {
      SplitAt(sep, parts[0], Join([sep], parts[1..]));
      SplitJoin(sep, parts[1..]);
      hide SplitOn;
      assert parts == [parts[0]] + parts[1..];
    }
  }

  /** Joining undoes splitting. */
  lemma {:induction false} JoinSplit(sep: char, s: string)
    ensures Join([sep], SplitOn(sep, s)) == s
  {
    if s != "" {
      JoinSplit(sep, s[1..]);
      var rest := SplitOn(sep, s[1..]);
      if s[0] == sep {
        assert ([""] + rest)[1..] == rest;
      } else {
        assert ([[s[0]] + rest[0]] + rest[1..])[1..] == rest[1..];
      }
      assert s == [s[0]] + s[1..];
    }
  }
}
