/** The streaming NDJSON decoder of crates/sqail-client/src/lib.rs: an
    incremental line splitter that must behave like splitting the whole body
    on newlines, however the bytes are cut into chunks. */
module NdjsonSpec {
  import opened Prelude

  type byte = bv8

  const NEWLINE: byte := 10
  /** Longest line accepted, 256 MiB. */
  const MAX_LINE: nat := 256 * 1024 * 1024

  /** What the JSON parser makes of one line. */
  datatype Parsed<+E> = Known(event: E) | Newer | Malformed
  datatype DecodeError = BadEvent | LineTooLong | Transport
  datatype Item<+E> = Event(event: E) | Failed(error: DecodeError)

  /** `u8::is_ascii_whitespace`: tab, line feed, form feed, return, space. */
  predicate IsWhitespace(b: byte) {
    b == 9 || b == 10 || b == 12 || b == 13 || b == 32
  }

  predicate IsBlank(line: seq<byte>) {
    forall i :: 0 <= i < |line| ==> IsWhitespace(line[i])
  }

  /** Blank lines and events newer than this build are skipped. */
  function Decode<E>(parse: seq<byte> -> Parsed<E>, line: seq<byte>): seq<Item<E>> {
    if IsBlank(line) then []
    else match parse(line)
      case Newer => []
      case Known(e) => [Event(e)]
      case Malformed => [Failed(BadEvent)]
  }

  function DecodeAll<E>(parse: seq<byte> -> Parsed<E>, lines: seq<seq<byte>>): seq<Item<E>> {
    if lines == [] then [] else Decode(parse, lines[0]) + DecodeAll(parse, lines[1..])
  }

  /** Complete lines without their newline, and the unterminated rest. */
  datatype Cut = Cut(lines: seq<seq<byte>>, rest: seq<byte>)

  /** Position of the first newline, or the length if there is none. */
  function FirstNewline(s: seq<byte>): (p: nat)
    ensures p <= |s|
    ensures NEWLINE !in s[..p]
    ensures p < |s| ==> s[p] == NEWLINE
  {
    if s == [] || s[0] == NEWLINE then 0 else 1 + FirstNewline(s[1..])
  }

  /** Split once on newlines. */
  function Split(s: seq<byte>): Cut
    decreases |s|
  {
    var p := FirstNewline(s);
    if p == |s| then Cut([], s)
    else var tail := Split(s[p + 1..]); Cut([s[..p]] + tail.lines, tail.rest)
  }

  /** The bytes a cut came from. */
  function Unsplit(c: Cut): seq<byte>
    decreases |c.lines|
  {
    if c.lines == [] then c.rest
    else c.lines[0] + [NEWLINE] + Unsplit(Cut(c.lines[1..], c.rest))
  }

  ghost predicate NewlineFree(c: Cut) {
    NEWLINE !in c.rest && forall i :: 0 <= i < |c.lines| ==> NEWLINE !in c.lines[i]
  }

  lemma FirstNewlineIs(s: seq<byte>, p: nat)
    requires p <= |s| && NEWLINE !in s[..p]
    requires p < |s| ==> s[p] == NEWLINE
    ensures FirstNewline(s) == p
  {
  }

  /** The first newline ends the first line. */
  lemma SplitAt(s: seq<byte>, p: nat)
    requires p < |s| && s[p] == NEWLINE && NEWLINE !in s[..p]
    ensures Split(s) == Cut([s[..p]] + Split(s[p + 1..]).lines, Split(s[p + 1..]).rest)
  {
    hide FirstNewline;
    FirstNewlineIs(s, p);
  }

  lemma SplitNone(s: seq<byte>)
    requires NEWLINE !in s
    ensures Split(s) == Cut([], s)
  {
    hide FirstNewline;
    assert s[..|s|] == s;
    FirstNewlineIs(s, |s|);
  }

  lemma UnsplitNil(rest: seq<byte>)
    ensures Unsplit(Cut([], rest)) == rest
  {
  }

  lemma UnsplitCons(line: seq<byte>, lines: seq<seq<byte>>, rest: seq<byte>)
    ensures Unsplit(Cut([line] + lines, rest)) == line + [NEWLINE] + Unsplit(Cut(lines, rest))
  {
    assert ([line] + lines)[1..] == lines;
  }

  /** `Split` loses nothing and cuts at every newline ... */
  lemma {:induction false} SplitIsExact(s: seq<byte>)
    ensures NewlineFree(Split(s)) && Unsplit(Split(s)) == s
    decreases |s|
  {
    hide Split;
    hide Unsplit;
    var p := FirstNewline(s);
    if p == |s| {
      assert s[..p] == s;
      SplitNone(s);
      UnsplitNil(s);
    } else {
      SplitAt(s, p);
      SplitIsExact(s[p + 1..]);
      var tail := Split(s[p + 1..]);
      UnsplitCons(s[..p], tail.lines, tail.rest);
      assert s == s[..p] + [NEWLINE] + s[p + 1..];
    }
  }

  /** ... and is the only cut that does. */
  lemma {:induction false} SplitIsUnique(c: Cut)
    requires NewlineFree(c)
    ensures Split(Unsplit(c)) == c
    decreases |c.lines|
  {
    var s := Unsplit(c);
    if c.lines == [] {
      SplitNone(s);
    } else {
      var tail := Cut(c.lines[1..], c.rest);
      var p := |c.lines[0]|;
      assert s[..p] == c.lines[0];
      SplitAt(s, p);
      assert s[p + 1..] == Unsplit(tail);
      SplitIsUnique(tail);
      assert [c.lines[0]] + tail.lines == c.lines;
    }
  }

  /** Splitting may stop anywhere and go on from the rest. */
  lemma {:induction false} SplitContinues(a: seq<byte>, b: seq<byte>)
    ensures Split(a + b) ==
            Cut(Split(a).lines + Split(Split(a).rest + b).lines, Split(Split(a).rest + b).rest)
    decreases |a|
  {
    hide Split;
    var p := FirstNewline(a);
    if p == |a| {
      assert a[..p] == a;
      SplitNone(a);
    } else {
      SplitAt(a, p);
      assert (a + b)[..p] == a[..p] && (a + b)[p + 1..] == a[p + 1..] + b;
      SplitAt(a + b, p);
      SplitContinues(a[p + 1..], b);
    }
  }

  lemma DecodeAllNil<E>(parse: seq<byte> -> Parsed<E>)
    ensures DecodeAll(parse, []) == []
  {
  }

  lemma DecodeAllOne<E>(parse: seq<byte> -> Parsed<E>, line: seq<byte>)
    ensures DecodeAll(parse, [line]) == Decode(parse, line)
  {
  }

  lemma {:induction false} DecodeAllAppend<E>(parse: seq<byte> -> Parsed<E>, a: seq<seq<byte>>, b: seq<seq<byte>>)
    ensures DecodeAll(parse, a + b) == DecodeAll(parse, a) + DecodeAll(parse, b)
  {
    if a == [] {
      assert a + b == b;
    } else {
      assert (a + b)[1..] == a[1..] + b;
      DecodeAllAppend(parse, a[1..], b);
    }
  }

  /** What a body means: split it on newlines once, decode every line. */
  function Reference<E>(parse: seq<byte> -> Parsed<E>, s: seq<byte>): seq<Item<E>> {
    DecodeAll(parse, Split(s).lines) + Decode(parse, Split(s).rest)
  }

  /** One `push` on a pending unterminated line. */
  function PushOut<E>(parse: seq<byte> -> Parsed<E>, pending: seq<byte>, chunk: seq<byte>): seq<Item<E>> {
    var c := Split(pending + chunk);
    DecodeAll(parse, c.lines) + if |c.rest| > MAX_LINE then [Failed(LineTooLong)] else []
  }

  function PushRest(pending: seq<byte>, chunk: seq<byte>): seq<byte> {
    var c := Split(pending + chunk);
    if |c.rest| > MAX_LINE then [] else c.rest
  }

  /** What `push` on every chunk and then `finish` return, from `pending` on. */
  function Streamed<E>(parse: seq<byte> -> Parsed<E>, pending: seq<byte>, chunks: seq<seq<byte>>): seq<Item<E>>
    decreases |chunks|
  {
    if chunks == [] then Decode(parse, pending)
    else PushOut(parse, pending, chunks[0]) + Streamed(parse, PushRest(pending, chunks[0]), chunks[1..])
  }

  /** No chunk ends inside a line that has already grown past the cap. */
  predicate NeverTooLong(pending: seq<byte>, chunks: seq<seq<byte>>)
    decreases |chunks|
  {
    chunks == [] ||
    (|Split(pending + chunks[0]).rest| <= MAX_LINE &&
     NeverTooLong(Split(pending + chunks[0]).rest, chunks[1..]))
  }

  lemma {:induction false} DecodeAllNeverTooLong<E>(parse: seq<byte> -> Parsed<E>, lines: seq<seq<byte>>)
    ensures Failed(LineTooLong) !in DecodeAll(parse, lines)
  {
    if lines != [] {
      DecodeAllNeverTooLong(parse, lines[1..]);
    }
  }

  lemma {:induction false} TooLongShows<E>(parse: seq<byte> -> Parsed<E>, pending: seq<byte>, chunks: seq<seq<byte>>)
    requires !NeverTooLong(pending, chunks)
    ensures Failed(LineTooLong) in Streamed(parse, pending, chunks)
    decreases |chunks|
  {
    var c := Split(pending + chunks[0]);
    if |c.rest| <= MAX_LINE {
      TooLongShows(parse, c.rest, chunks[1..]);
    } else {
      var out := PushOut<E>(parse, pending, chunks[0]);
      assert out[|out| - 1] == Failed(LineTooLong);
      assert Streamed(parse, pending, chunks)[|out| - 1] == Failed(LineTooLong);
    }
  }

  lemma {:induction false} StreamedIsReference<E>(parse: seq<byte> -> Parsed<E>, pending: seq<byte>, chunks: seq<seq<byte>>)
    requires NEWLINE !in pending && NeverTooLong(pending, chunks)
    ensures Streamed(parse, pending, chunks) == Reference(parse, pending + Flatten(chunks))
    decreases |chunks|
  {
    hide Split;
    hide DecodeAll;
    if chunks == [] {
      assert pending + Flatten(chunks) == pending;
      SplitNone(pending);
      DecodeAllNil(parse);
    } else {
      var s := pending + chunks[0];
      var c := Split(s);
      var later := Flatten(chunks[1..]);
      assert pending + Flatten(chunks) == s + later;
      SplitIsExact(s);
      StreamedIsReference(parse, c.rest, chunks[1..]);
      SplitContinues(s, later);
      DecodeAllAppend(parse, c.lines, Split(c.rest + later).lines);
    }
  }

  lemma ReferenceNeverTooLong<E>(parse: seq<byte> -> Parsed<E>, s: seq<byte>)
    ensures Failed(LineTooLong) !in Reference(parse, s)
  {
    hide Split;
    DecodeAllNeverTooLong(parse, Split(s).lines);
  }

  /** Chunking invariance, exactly: cutting a body into chunks changes nothing
      if and only if no chunk ends inside a line already past the cap. */
  lemma ChunkingInvariance<E>(parse: seq<byte> -> Parsed<E>, chunks: seq<seq<byte>>)
    ensures Streamed(parse, [], chunks) == Reference(parse, Flatten(chunks)) <==> NeverTooLong([], chunks)
  {
    hide *;
    assert [] + Flatten(chunks) == Flatten(chunks);
    if NeverTooLong([], chunks) {
      StreamedIsReference(parse, [], chunks);
    } else {
      TooLongShows(parse, [], chunks);
      ReferenceNeverTooLong(parse, Flatten(chunks));
    }
  }

  ghost predicate Fits(c: Cut) {
    |c.rest| <= MAX_LINE && forall i :: 0 <= i < |c.lines| ==> |c.lines[i]| <= MAX_LINE
  }

  ghost predicate LinesFit(s: seq<byte>) {
    Fits(Split(s))
  }

  lemma FitsTail(lines: seq<seq<byte>>, d: Cut)
    requires Fits(Cut(lines + d.lines, d.rest))
    ensures Fits(d)
  {
    assert forall i :: 0 <= i < |d.lines| ==> d.lines[i] == (lines + d.lines)[|lines| + i];
  }

  lemma {:induction false} FittingLinesNeverTooLong(pending: seq<byte>, chunks: seq<seq<byte>>)
    requires NEWLINE !in pending && LinesFit(pending + Flatten(chunks))
    ensures NeverTooLong(pending, chunks)
    decreases |chunks|
  {
    hide Split;
    if chunks != [] {
      var s := pending + chunks[0];
      var later := Flatten(chunks[1..]);
      assert pending + Flatten(chunks) == s + later;
      SplitContinues(s, later);
      SplitIsExact(s);
      var c := Split(s);
      FitsTail(c.lines, Split(c.rest + later));
      RestIsPrefix(c.rest, later);
      FittingLinesNeverTooLong(c.rest, chunks[1..]);
    }
  }

  /** An unterminated line stays the start of the first line that follows. */
  lemma RestIsPrefix(r: seq<byte>, more: seq<byte>)
    requires NEWLINE !in r
    ensures var d := Split(r + more);
            if d.lines == [] then |r| <= |d.rest| else |r| <= |d.lines[0]|
  {
    assert forall i :: 0 <= i < |r| ==> (r + more)[i] == r[i];
  }

  /** A body survives every chunking exactly when all its lines fit the cap. */
  lemma EveryChunkingAgreesIffLinesFit<E>(parse: seq<byte> -> Parsed<E>, s: seq<byte>)
    ensures (forall chunks: seq<seq<byte>> :: Flatten(chunks) == s ==>
               Streamed(parse, [], chunks) == Reference(parse, s)) <==> LinesFit(s)
  {
    if LinesFit(s) {
      forall chunks: seq<seq<byte>> | Flatten(chunks) == s
        ensures Streamed(parse, [], chunks) == Reference(parse, s)
      {
        assert [] + Flatten(chunks) == s;
        FittingLinesNeverTooLong([], chunks);
        ChunkingInvariance(parse, chunks);
      }
    } else {
      var chunks := BadChunks(s);
      ChunkingInvariance(parse, chunks);
    }
  }

  /** Cut right after a line that does not fit, before its newline. */
  lemma {:induction false} BadChunks(s: seq<byte>) returns (chunks: seq<seq<byte>>)
    requires !LinesFit(s)
    ensures Flatten(chunks) == s && !NeverTooLong([], chunks)
    decreases |s|
  {
    var n := LongPrefix(s);
    chunks := [s[..n], s[n..]];
    assert chunks[1..][1..] == [];
    assert Flatten(chunks[1..]) == s[n..];
    assert [] + s[..n] == s[..n];
  }

  lemma {:induction false} LongPrefix(s: seq<byte>) returns (n: nat)
    requires !LinesFit(s)
    ensures n <= |s| && |Split(s[..n]).rest| > MAX_LINE
    decreases |s|
  {
    hide FirstNewline;
    var p := FirstNewline(s);
    if p == |s| {
      n := p;
      assert s[..n] == s;
    } else if p > MAX_LINE {
      n := p;
      SplitNone(s[..p]);
    } else {
      var tail := s[p + 1..];
      assert Split(s).lines == [s[..p]] + Split(tail).lines;
      var m := LongPrefix(tail);
      n := p + 1 + m;
      assert s[..n][..p] == s[..p] && s[..n][p + 1..] == tail[..m];
      SplitAt(s[..n], p);
    }
  }

  /** The bytes of these lines, each ended by a newline, and `rest`. */
  function Bytes(lines: seq<seq<byte>>, rest: seq<byte>): seq<byte> {
    Unsplit(Cut(lines, rest))
  }

  lemma BodyMeans<E>(parse: seq<byte> -> Parsed<E>, lines: seq<seq<byte>>, rest: seq<byte>)
    requires NewlineFree(Cut(lines, rest))
    ensures Reference(parse, Bytes(lines, rest)) == DecodeAll(parse, lines) + Decode(parse, rest)
  {
    SplitIsUnique(Cut(lines, rest));
    hide Split;
    hide DecodeAll;
    hide Decode;
  }

  /** What a line stands for: tabs, form feeds, carriage returns and blanks
      and events of a newer build for nothing, a known event for itself, and
      anything else for one error. */
  ghost predicate StandsFor<E>(parse: seq<byte> -> Parsed<E>, line: seq<byte>, items: seq<Item<E>>) {
    if forall i :: 0 <= i < |line| ==> line[i] == 9 || line[i] == 12 || line[i] == 13 || line[i] == 32 then items == []
    else match parse(line)
      case Newer => items == []
      case Known(e) => items == [Event(e)]
      case Malformed => items == [Failed(BadEvent)]
  }

  lemma DecodeStandsFor<E>(parse: seq<byte> -> Parsed<E>, line: seq<byte>)
    requires NEWLINE !in line
    ensures StandsFor(parse, line, Decode(parse, line))
  {
  }

  lemma WithLine(a: seq<seq<byte>>, line: seq<byte>, b: seq<seq<byte>>, rest: seq<byte>)
    requires NewlineFree(Cut(a + [line] + b, rest))
    ensures NewlineFree(Cut(a + b, rest)) && NEWLINE !in line
  {
    assert (a + [line] + b)[|a|] == line;
    forall i | 0 <= i < |a + b| ensures NEWLINE !in (a + b)[i] {
      assert (a + b)[i] == (a + [line] + b)[if i < |a| then i else i + 1];
    }
  }

  /** Each line of a body counts for itself, in its place: with one more line
      among them, the body yields what that line stands for in between. */
  lemma LineCounts<E>(parse: seq<byte> -> Parsed<E>, a: seq<seq<byte>>, line: seq<byte>, b: seq<seq<byte>>,
                      rest: seq<byte>) returns (items: seq<Item<E>>)
    requires NewlineFree(Cut(a + [line] + b, rest))
    ensures StandsFor(parse, line, items)
    ensures var (front, back) := (DecodeAll(parse, a), DecodeAll(parse, b) + Decode(parse, rest));
            Reference(parse, Bytes(a + [line] + b, rest)) == front + items + back &&
            Reference(parse, Bytes(a + b, rest)) == front + back
  {
    WithLine(a, line, b, rest);
    items := Decode(parse, line);
    DecodeStandsFor(parse, line);
    hide *;
    BodyMeans(parse, a + [line] + b, rest);
    BodyMeans(parse, a + b, rest);
    DecodeAllAppend(parse, a + [line], b);
    DecodeAllAppend(parse, a, [line]);
    DecodeAllAppend(parse, a, b);
    DecodeAllOne(parse, line);
    ConcatAssoc(DecodeAll(parse, a) + items, DecodeAll(parse, b), Decode(parse, rest));
    ConcatAssoc(DecodeAll(parse, a), DecodeAll(parse, b), Decode(parse, rest));
  }

  lemma FewerFit(a: seq<seq<byte>>, line: seq<byte>, b: seq<seq<byte>>, rest: seq<byte>)
    requires Fits(Cut(a + [line] + b, rest))
    ensures Fits(Cut(a + b, rest))
  {
    forall i | 0 <= i < |a + b| ensures |(a + b)[i]| <= MAX_LINE {
      assert (a + b)[i] == (a + [line] + b)[if i < |a| then i else i + 1];
    }
  }

  lemma BytesFit(lines: seq<seq<byte>>, rest: seq<byte>)
    requires NewlineFree(Cut(lines, rest)) && Fits(Cut(lines, rest))
    ensures LinesFit(Bytes(lines, rest))
  {
    SplitIsUnique(Cut(lines, rest));
    hide Split;
  }

  /** ... so blank lines and lines of newer events may be put anywhere into a
      body whose lines fit the cap: however both are cut into chunks, the
      output is the same. */
  lemma SkippedLinesChangeNothing<E>(parse: seq<byte> -> Parsed<E>, a: seq<seq<byte>>, line: seq<byte>, b: seq<seq<byte>>,
                                     rest: seq<byte>, more: seq<seq<byte>>, fewer: seq<seq<byte>>)
    requires NewlineFree(Cut(a + [line] + b, rest)) && Fits(Cut(a + [line] + b, rest)) && StandsFor(parse, line, [])
    requires Flatten(more) == Bytes(a + [line] + b, rest) && Flatten(fewer) == Bytes(a + b, rest)
    ensures Streamed(parse, [], more) == Streamed(parse, [], fewer)
  {
    WithLine(a, line, b, rest);
    var items := LineCounts(parse, a, line, b, rest);
    assert items == [];
    hide *;
    FewerFit(a, line, b, rest);
    BytesFit(a + [line] + b, rest);
    BytesFit(a + b, rest);
    EveryChunkingAgreesIffLinesFit(parse, Bytes(a + [line] + b, rest));
    EveryChunkingAgreesIffLinesFit(parse, Bytes(a + b, rest));
    assert DecodeAll(parse, a) + [] == DecodeAll(parse, a);
  }

  /** Lines as the service writes them: one serialised event and a newline. */
  function Serialised<E>(encode: E -> seq<byte>, events: seq<E>): seq<byte> {
    if events == [] then [] else encode(events[0]) + [NEWLINE] + Serialised(encode, events[1..])
  }

  /** A JSON text holds no raw newline (RFC 8259, section 7) and parses back. */
  ghost predicate IsCodec<E(!new)>(encode: E -> seq<byte>, parse: seq<byte> -> Parsed<E>) {
    forall e: E {:trigger encode(e)} ::
      NEWLINE !in encode(e) && !IsBlank(encode(e)) && parse(encode(e)) == Known(e)
  }

  function Events<E>(events: seq<E>): seq<Item<E>> {
    seq(|events|, i requires 0 <= i < |events| => Event(events[i]))
  }

  lemma {:induction false} SerialisedSplits<E(!new)>(encode: E -> seq<byte>, parse: seq<byte> -> Parsed<E>, events: seq<E>)
    requires IsCodec(encode, parse)
    ensures Split(Serialised(encode, events)).rest == []
    ensures DecodeAll(parse, Split(Serialised(encode, events)).lines) == Events(events)
  {
    hide Split;
    hide DecodeAll;
    var s := Serialised(encode, events);
    if events == [] {
      SplitNone(s);
      DecodeAllNil(parse);
    } else {
      var line := encode(events[0]);
      assert s[..|line|] == line && s[|line| + 1..] == Serialised(encode, events[1..]);
      SplitAt(s, |line|);
      var tail := Split(s[|line| + 1..]).lines;
      SerialisedSplits(encode, parse, events[1..]);
      DecodeAllAppend(parse, [line], tail);
      DecodeAllOne(parse, line);
      assert Events(events) == [Event(events[0])] + Events(events[1..]);
    }
  }

  /** Serialised events come back unchanged, in order, for every chunking of
      a body whose lines fit. */
  lemma EventsRoundTrip<E(!new)>(encode: E -> seq<byte>, parse: seq<byte> -> Parsed<E>,
                                 events: seq<E>, chunks: seq<seq<byte>>)
    requires IsCodec(encode, parse) && Flatten(chunks) == Serialised(encode, events)
    requires LinesFit(Flatten(chunks))
    ensures Streamed(parse, [], chunks) == Events(events)
  {
    EveryChunkingAgreesIffLinesFit(parse, Flatten(chunks));
    SerialisedSplits(encode, parse, events);
    assert Events(events) + [] == Events(events);
  }

  /** What the HTTP body stream delivers: chunks, and perhaps a failure. */
  datatype Body = Body(chunks: seq<seq<byte>>, broken: bool)

  /** Everything the event stream yields from here on. A broken body yields
      the error in place of the unterminated line. */
  function Yields<E>(parse: seq<byte> -> Parsed<E>, pending: seq<byte>, body: Body): seq<Item<E>>
    decreases |body.chunks|
  {
    if body.chunks == [] then
      if body.broken then [Failed(Transport)] else Decode(parse, pending)
    else
      PushOut(parse, pending, body.chunks[0]) +
      Yields(parse, PushRest(pending, body.chunks[0]), body.(chunks := body.chunks[1..]))
  }

  /** An unbroken body yields what its chunks decode to. */
  lemma {:induction false} UnbrokenYields<E>(parse: seq<byte> -> Parsed<E>, pending: seq<byte>, chunks: seq<seq<byte>>)
    ensures Yields(parse, pending, Body(chunks, false)) == Streamed(parse, pending, chunks)
    decreases |chunks|
  {
    if chunks != [] {
      UnbrokenYields(parse, PushRest(pending, chunks[0]), chunks[1..]);
    }
  }

  /** A body that breaks yields every complete line before the break, then
      the error; the partial line is dropped. */
  lemma {:induction false} BrokenYields<E>(parse: seq<byte> -> Parsed<E>, pending: seq<byte>, chunks: seq<seq<byte>>)
    requires NEWLINE !in pending && NeverTooLong(pending, chunks)
    ensures Yields(parse, pending, Body(chunks, true)) ==
            DecodeAll(parse, Split(pending + Flatten(chunks)).lines) + [Failed(Transport)]
    decreases |chunks|
  {
    hide Split;
    hide DecodeAll;
    if chunks == [] {
      assert pending + Flatten(chunks) == pending;
      SplitNone(pending);
      DecodeAllNil(parse);
    } else {
      var s := pending + chunks[0];
      var c := Split(s);
      var later := Flatten(chunks[1..]);
      assert pending + Flatten(chunks) == s + later;
      SplitIsExact(s);
      BrokenYields(parse, c.rest, chunks[1..]);
      SplitContinues(s, later);
      DecodeAllAppend(parse, c.lines, Split(c.rest + later).lines);
    }
  }
}

module Ndjson {
  import opened Prelude
  import opened NdjsonSpec

  /** `NdjsonDecoder`: the bytes of an unfinished line and how many of them
      are known to hold no newline. */
  class NdjsonDecoder<E> {
    const parse: seq<byte> -> Parsed<E>
    var buf: seq<byte>
    var scanned: nat
    /** Bytes looked at by the newline search so far, and bytes pushed. */
    ghost var examined: nat
    ghost var pushed: nat

    /** Between calls the buffer is one unfinished line within the cap, fully
        scanned, and the search has looked at each pushed byte exactly once. */
    ghost predicate Valid()
      reads this
    {
      NEWLINE !in buf && scanned == |buf| <= MAX_LINE && examined == pushed
    }

    constructor (parse: seq<byte> -> Parsed<E>)
      ensures Valid() && buf == [] && this.parse == parse && pushed == 0
    {
      this.parse := parse;
      buf, scanned, examined, pushed := [], 0, 0, 0;
    }

    /** `buf[scanned..].iter().position(..)`: the first newline at or after
        `scanned`, as an index into `buf`. */
    method Position() returns (pos: Option<nat>)
      requires scanned <= |buf|
      modifies this`examined
      ensures pos.Some? ==> scanned <= pos.value < |buf| && buf[pos.value] == NEWLINE
      ensures pos.Some? ==> NEWLINE !in buf[scanned..pos.value]
      ensures pos.Some? ==> examined == old(examined) + (pos.value + 1 - scanned)
      ensures pos.None? ==> NEWLINE !in buf[scanned..] && examined == old(examined) + (|buf| - scanned)
    {
      var i := scanned;
      while i < |buf|
        invariant scanned <= i <= |buf|
        invariant NEWLINE !in buf[scanned..i]
        invariant examined == old(examined) + (i - scanned)
      {
        examined := examined + 1;
        if buf[i] == NEWLINE { return Some(i); }
        assert buf[scanned..i + 1] == buf[scanned..i] + [buf[i]];
        i := i + 1;
      }
      assert buf[scanned..i] == buf[scanned..];
      return None;
    }

    /** Cut the first complete line off the buffer, if there is one; else
        everything has now been scanned. */
    method NextLine() returns (line: Option<seq<byte>>)
      requires scanned <= |buf| && NEWLINE !in buf[..scanned]
      modifies this
      ensures scanned <= |buf| && NEWLINE !in buf[..scanned]
      ensures examined + (|buf| - scanned) == old(examined + (|buf| - scanned))
      ensures match line
        case Some(l) => |buf| < |old(buf)| && |old(buf)| == |l| + 1 + |buf| && scanned == 0 &&
                        Split(old(buf)) == Cut([l] + Split(buf).lines, Split(buf).rest)
        case None => buf == old(buf) && scanned == |buf| && NEWLINE !in buf
      ensures pushed == old(pushed)
    {
      hide Split;
      var position := Position();
      match position {
        case Some(pos) =>
          assert buf[..pos] == buf[..scanned] + buf[scanned..pos];
          SplitAt(buf, pos);
          line := Some(buf[..pos]);
          buf := buf[pos + 1..];
          scanned := 0;
        case None =>
          assert buf == buf[..scanned] + buf[scanned..];
          scanned := |buf|;
          line := None;
      }
    }

    /** Take in one chunk; `out` is what the lines it completes decode to. */
    method Push(chunk: seq<byte>) returns (out: seq<Item<E>>)
      requires Valid()
      modifies this
      ensures Valid()
      ensures out == PushOut(parse, old(buf), chunk)
      ensures buf == PushRest(old(buf), chunk)
      ensures pushed == old(pushed) + |chunk|
    {
      hide Split;
      hide Decode;
      hide DecodeAll;
      buf := buf + chunk;
      pushed := pushed + |chunk|;
      ghost var whole := Split(buf);
      ghost var done: seq<seq<byte>> := [];
      DecodeAllNil(parse);
      out := [];
      while true
        invariant scanned <= |buf| && NEWLINE !in buf[..scanned]
        invariant examined + (|buf| - scanned) == pushed == old(pushed) + |chunk|
        invariant whole == Split(old(buf) + chunk)
        invariant whole == Cut(done + Split(buf).lines, Split(buf).rest)
        invariant out == DecodeAll(parse, done)
        decreases |buf|
      {
        var next := NextLine();
        if next.None? { break; }
        DecodeAllAppend(parse, done, [next.value]);
        DecodeAllOne(parse, next.value);
        done := done + [next.value];
        out := out + Decode(parse, next.value);
      }
      SplitNone(buf);
      assert whole == Cut(done, buf);
      if |buf| > MAX_LINE {
        buf := [];
        scanned := 0;
        out := out + [Failed(LineTooLong)];
      }
    }

    /** No more bytes will come: what is left over is the last line. */
    method Finish() returns (out: seq<Item<E>>)
      requires Valid()
      modifies this
      ensures Valid() && buf == [] && pushed == old(pushed)
      ensures out == Decode(parse, old(buf))
    {
      var rest := buf;
      buf := [];
      scanned := 0;
      out := Decode(parse, rest);
    }
  }

  /** The `ndjson` stream: a decoder, the body still to come, and the queue
      of items decoded but not yet taken. */
  class EventStream<E> {
    const decoder: NdjsonDecoder<E>
    var body: Body
    var ready: seq<Item<E>>
    var ended: bool

    ghost predicate Valid()
      reads this, decoder
    {
      decoder.Valid()
    }

    /** Everything this stream will still yield. */
    ghost function Remaining(): seq<Item<E>>
      reads this, decoder
    {
      ready + if ended then [] else Yields(decoder.parse, decoder.buf, body)
    }

    constructor (parse: seq<byte> -> Parsed<E>, body: Body)
      ensures Valid() && fresh(decoder)
      ensures Remaining() == Yields(parse, [], body)
    {
      decoder := new NdjsonDecoder(parse);
      this.body := body;
      ready, ended := [], false;
    }

    /** Take one step of the body into the queue; the yield is unchanged. */
    method Fetch()
      requires Valid() && ready == [] && !ended
      modifies this, decoder
      ensures Valid() && Remaining() == old(Remaining())
      ensures if old(body.chunks) == [] then ended else !ended && body.chunks == old(body.chunks)[1..]
    {
      hide PushOut;
      hide PushRest;
      hide Decode;
      if body.chunks != [] {
        ready := decoder.Push(body.chunks[0]);
        body := body.(chunks := body.chunks[1..]);
      } else if body.broken {
        ended := true;
        ready := [Failed(Transport)];
      } else {
        ended := true;
        ready := decoder.Finish();
      }
    }

    /** The next item, or `None` when the stream is over: the items come out
        one by one, in order, none lost and none invented. */
    method Next() returns (item: Option<Item<E>>)
      requires Valid()
      modifies this, decoder
      ensures Valid()
      ensures old(Remaining()) == match item { case Some(i) => [i] + Remaining() case None => [] }
      ensures item.None? ==> Remaining() == []
    {
      hide Yields;
      while ready == [] && !ended
        invariant Valid() && Remaining() == old(Remaining())
        decreases !ended, |body.chunks|
      {
        Fetch();
      }
      if ready == [] { return None; }
      item := Some(ready[0]);
      assert ready == [ready[0]] + ready[1..];
      ready := ready[1..];
    }
  }
}
