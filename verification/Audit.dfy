/** The audit log and its keyset paging (crates/sqail-service/src/store.rs). */
module Audit {
  import opened Prelude

  datatype Entry = Entry(id: int, what: string)
  datatype Page = Page(items: seq<Entry>, nextBefore: Option<int>)

  /** AUTOINCREMENT: rows are stored with strictly growing ids. */
  ghost predicate Ascending(log: seq<Entry>) {
    forall i, j :: 0 <= i < j < |log| ==> log[i].id < log[j].id
  }

  /** `WHERE ?1 IS NULL OR id < ?1`. */
  function Older(log: seq<Entry>, before: Option<int>): seq<Entry> {
    if log == [] then []
    else
      var rest := Older(log[..|log| - 1], before);
      var last := log[|log| - 1];
      if before.None? || last.id < before.value then rest + [last] else rest
  }

  function Reversed(log: seq<Entry>): (r: seq<Entry>)
    ensures |r| == |log|
  {
    if log == [] then [] else [log[|log| - 1]] + Reversed(log[..|log| - 1])
  }

  /** The query: `ORDER BY id DESC LIMIT ?2`. */
  function Select(log: seq<Entry>, before: Option<int>, limit: nat): seq<Entry> {
    var newest := Reversed(Older(log, before));
    if |newest| > limit then newest[..limit] else newest
  }

  /** A page, and the id to go on from: only a full page says that there may
      be more. */
  function ListPage(log: seq<Entry>, before: Option<int>, limit: nat): Page {
    var items := Select(log, before, limit);
    Page(items, if |items| == limit && items != [] then Some(items[|items| - 1].id) else None)
  }

  predicate IsOlder(e: Entry, before: Option<int>) {
    before.None? || e.id < before.value
  }

  /** The newest `limit` entries older than `before`, newest first; the last
      id to go on from exactly if the page is full. */
  ghost predicate IsPage(log: seq<Entry>, before: Option<int>, limit: nat, page: Page) {
    |page.items| <= limit && AllOlder(log, before, page.items) && Descending(page.items) &&
    RestIsLater(log, before, limit, page) &&
    page.nextBefore == if |page.items| == limit && limit > 0 then Some(page.items[limit - 1].id) else None
  }

  ghost predicate AllOlder(log: seq<Entry>, before: Option<int>, items: seq<Entry>) {
    forall i :: 0 <= i < |items| ==> items[i] in log && IsOlder(items[i], before)
  }

  ghost predicate Descending(items: seq<Entry>) {
    forall i, j :: 0 <= i < j < |items| ==> items[i].id > items[j].id
  }

  /** Older entries that are not on the page come after it, which is full. */
  ghost predicate RestIsLater(log: seq<Entry>, before: Option<int>, limit: nat, page: Page) {
    forall e :: e in log && IsOlder(e, before) && e !in page.items ==> LeftForLater(e, page, limit)
  }

  ghost predicate LeftForLater(e: Entry, page: Page, limit: nat) {
    |page.items| == limit && forall i :: 0 <= i < |page.items| ==> e.id < page.items[i].id
  }

  class Store {
    var log: seq<Entry>
    /** The id the next row gets. */
    var nextId: int

    ghost predicate Valid()
      reads this
    {
      Ascending(log) && forall i :: 0 <= i < |log| ==> log[i].id < nextId
    }

    constructor ()
      ensures Valid() && log == []
    {
      log, nextId := [], 1;
    }

    /** Append an entry; a failed write is reported and otherwise ignored. */
    method Audit(what: string, fails: bool)
      requires Valid()
      modifies this
      ensures Valid()
      ensures if fails then log == old(log) else log == old(log) + [Entry(old(nextId), what)]
    {
      if !fails {
        log := log + [Entry(nextId, what)];
        nextId := nextId + 1;
      }
    }

    /** One page of entries older than `before`, newest first. */
    method AuditList(before: Option<int>, limit: nat) returns (page: Page)
      requires Valid()
      ensures IsPage(log, before, limit, page)
      ensures page == ListPage(log, before, limit)
    {
      ListPageIsPage(log, before, limit);
      var items := Select(log, before, limit);
      var next: Option<int> := None;
      if |items| == limit {
        next := if items == [] then None else Some(items[|items| - 1].id);
      }
      page := Page(items, next);
    }
  }

  /** Logs as successive calls see them: each extends the one before it. */
  ghost predicate Growing(logs: seq<seq<Entry>>) {
    logs != [] && (forall k :: 0 <= k < |logs| ==> Ascending(logs[k])) &&
    (forall k :: 0 < k < |logs| ==> logs[k - 1] <= logs[k])
  }

  function Later(logs: seq<seq<Entry>>): seq<seq<Entry>>
    requires logs != []
  {
    if |logs| == 1 then logs else logs[1..]
  }

  /** Older entries of an ascending log are a prefix of it. */
  lemma {:induction false} OlderIsPrefix(log: seq<Entry>, before: Option<int>)
    requires Ascending(log)
    ensures Older(log, before) <= log
    ensures before.None? ==> Older(log, before) == log
  {
    if log != [] {
      var front, last := log[..|log| - 1], log[|log| - 1];
      OlderIsPrefix(front, before);
      assert log == front + [last];
      if before.Some? && last.id < before.value {
        AllKept(front, before.value);
      }
    }
  }

  lemma {:induction false} AllKept(log: seq<Entry>, before: int)
    requires forall i :: 0 <= i < |log| ==> log[i].id < before
    ensures Older(log, Some(before)) == log
  {
    if log != [] {
      AllKept(log[..|log| - 1], before);
      assert log == log[..|log| - 1] + [log[|log| - 1]];
    }
  }

  lemma {:induction false} NoneKept(log: seq<Entry>, extra: seq<Entry>, before: int)
    requires forall i :: 0 <= i < |extra| ==> extra[i].id >= before
    ensures Older(log + extra, Some(before)) == Older(log, Some(before))
  {
    if extra == [] {
      assert log + extra == log;
    } else {
      var all := log + extra;
      assert all[..|all| - 1] == log + extra[..|extra| - 1];
      NoneKept(log, extra[..|extra| - 1], before);
    }
  }

  /** A page starting before an entry of the log sees the entries under it,
      whatever has been appended since. */
  lemma OlderThanEntry(log: seq<Entry>, grown: seq<Entry>, n: nat)
    requires Ascending(grown) && log <= grown && n < |log|
    ensures Older(grown, Some(log[n].id)) == log[..n]
  {
    hide Older;
    var (kept, extra) := (grown[..n], grown[n..]);
    assert grown == kept + extra && grown[n] == log[n];
    forall i | 0 <= i < |extra| ensures extra[i].id >= log[n].id {
      assert extra[i] == grown[n + i];
    }
    NoneKept(kept, extra, log[n].id);
    AllKept(kept, log[n].id);
    assert log[..n] == kept;
  }

  lemma {:induction false} ReversedAt(log: seq<Entry>, i: nat)
    requires i < |log|
    ensures Reversed(log)[i] == log[|log| - 1 - i]
  {
    if i > 0 {
      ReversedAt(log[..|log| - 1], i - 1);
    }
  }

  lemma {:induction false} ReversedJoins(a: seq<Entry>, b: seq<Entry>)
    ensures Reversed(a + b) == Reversed(b) + Reversed(a)
    decreases |b|
  {
    if b == [] {
      assert a + b == a && Reversed(b) == [];
    } else {
      var front := b[..|b| - 1];
      ReversedJoins(a, front);
      assert (a + b)[..|a + b| - 1] == a + front;
      assert Reversed(b) == [b[|b| - 1]] + Reversed(front);
      assert Reversed(a + b) == [b[|b| - 1]] + Reversed(a + front);
      hide Reversed;
    }
  }

  lemma ReversedTake(log: seq<Entry>, k: nat)
    requires k <= |log|
    ensures Reversed(log)[..k] == Reversed(log[|log| - k..])
    ensures Reversed(log) == Reversed(log)[..k] + Reversed(log[..|log| - k])
    ensures 0 < k ==> Reversed(log)[k - 1] == log[|log| - k]
  {
    hide *;
    var n := |log| - k;
    var early, late := log[..n], log[n..];
    TakeDrop(log, n);
    ReversedJoins(early, late);
    if k > 0 { ReversedAt(log, k - 1); }
    FrontOf(Reversed(late), Reversed(early));
  }

  lemma TakeDrop(log: seq<Entry>, n: nat)
    requires n <= |log|
    ensures log == log[..n] + log[n..]
  {
  }

  lemma FrontOf(a: seq<Entry>, b: seq<Entry>)
    ensures (a + b)[..|a|] == a
  {
  }

  lemma {:induction false} OlderIs(log: seq<Entry>, before: Option<int>)
    ensures forall e :: e in Older(log, before) <==> e in log && IsOlder(e, before)
  {
    if log != [] {
      OlderIs(log[..|log| - 1], before);
      assert log == log[..|log| - 1] + [log[|log| - 1]];
    }
  }

  lemma SelectAt(log: seq<Entry>, before: Option<int>, limit: nat, i: nat)
    requires i < |Select(log, before, limit)|
    ensures var older := Older(log, before); i < |older| && Select(log, before, limit)[i] == older[|older| - 1 - i]
  {
    hide Older;
    hide Reversed;
    ReversedAt(Older(log, before), i);
  }

  /** The newest of `older`, newest first. */
  ghost predicate IsNewest(items: seq<Entry>, older: seq<Entry>, limit: nat) {
    |items| == (if |older| > limit then limit else |older|) &&
    forall i :: 0 <= i < |items| ==> items[i] == older[|older| - 1 - i]
  }

  lemma NewestDescend(items: seq<Entry>, older: seq<Entry>, limit: nat)
    requires IsNewest(items, older, limit) && Ascending(older)
    ensures Descending(items) && forall i :: 0 <= i < |items| ==> items[i] in older
  {
    forall i, j | 0 <= i < j < |items| ensures items[i].id > items[j].id {
      assert older[|older| - 1 - j].id < older[|older| - 1 - i].id;
    }
  }

  lemma NewestHave(items: seq<Entry>, older: seq<Entry>, limit: nat, k: nat)
    requires IsNewest(items, older, limit) && |older| - |items| <= k < |older|
    ensures older[k] in items
  {
    assert items[|older| - 1 - k] == older[k];
  }

  lemma NewestLeave(page: Page, older: seq<Entry>, limit: nat, e: Entry)
    requires IsNewest(page.items, older, limit) && Ascending(older) && e in older && e !in page.items
    ensures LeftForLater(e, page, limit)
  {
    var k :| 0 <= k < |older| && older[k] == e;
    if k >= |older| - |page.items| { NewestHave(page.items, older, limit, k); }
    forall i | 0 <= i < |page.items| ensures e.id < page.items[i].id {
      assert older[k].id < older[|older| - 1 - i].id;
    }
  }

  lemma PrefixAscends(log: seq<Entry>, older: seq<Entry>)
    requires Ascending(log) && older <= log
    ensures Ascending(older)
  {
    assert forall i :: 0 <= i < |older| ==> older[i] == log[i];
  }

  lemma SelectIsNewest(log: seq<Entry>, before: Option<int>, limit: nat)
    ensures IsNewest(Select(log, before, limit), Older(log, before), limit)
  {
    hide Older;
    hide Reversed;
    var items := Select(log, before, limit);
    assert |items| == if |Older(log, before)| > limit then limit else |Older(log, before)|;
    forall i | 0 <= i < |items| ensures items[i] == Older(log, before)[|Older(log, before)| - 1 - i] {
      SelectAt(log, before, limit, i);
    }
  }

  lemma RestOfNewest(log: seq<Entry>, before: Option<int>, limit: nat, page: Page, older: seq<Entry>)
    requires IsNewest(page.items, older, limit) && Ascending(older)
    requires forall e :: e in older <==> e in log && IsOlder(e, before)
    ensures RestIsLater(log, before, limit, page)
  {
    hide LeftForLater;
    hide IsNewest;
    hide Ascending;
    forall e | e in log && IsOlder(e, before) && e !in page.items ensures LeftForLater(e, page, limit) {
      NewestLeave(page, older, limit, e);
    }
  }

  /** The query returns such a page. */
  lemma ListPageIsPage(log: seq<Entry>, before: Option<int>, limit: nat)
    requires Ascending(log)
    ensures IsPage(log, before, limit, ListPage(log, before, limit))
  {
    var (older, page) := (Older(log, before), ListPage(log, before, limit));
    hide Older;
    hide Select;
    hide Descending;
    hide RestIsLater;
    hide Ascending;
    OlderIs(log, before);
    OlderIsPrefix(log, before);
    PrefixAscends(log, older);
    SelectIsNewest(log, before, limit);
    NewestDescend(page.items, older, limit);
    RestOfNewest(log, before, limit, page, older);
  }

  /** A page of a log whose older entries are `seen[..n]`. */
  lemma PageOf(log: seq<Entry>, before: Option<int>, limit: nat, older: seq<Entry>)
    requires limit >= 1 && Older(log, before) == older
    ensures var page := ListPage(log, before, limit);
            if |older| < limit then page == Page(Reversed(older), None)
            else page == Page(Reversed(older)[..limit], Some(older[|older| - limit].id))
  {
    hide Older;
    hide Reversed;
    if |older| >= limit {
      ReversedTake(older, limit);
      assert |older| == limit ==> Reversed(older)[..limit] == Reversed(older);
    }
  }

  lemma LaterGrows(logs: seq<seq<Entry>>)
    requires Growing(logs)
    ensures Growing(Later(logs)) && Ascending(Later(logs)[0]) && logs[0] <= Later(logs)[0]
  {
    hide Ascending;
  }

  /** The next page takes up where this one stops, in the log as it is then. */
  lemma NextPage(logs: seq<seq<Entry>>, limit: nat, n: nat)
    requires logs != [] && Growing(logs) && 1 <= limit <= n <= |logs[0]|
    ensures Growing(Later(logs)) && n - limit <= |Later(logs)[0]|
    ensures Later(logs)[0][..n - limit] == logs[0][..n - limit]
    ensures Older(Later(logs)[0], Some(logs[0][..n][n - limit].id)) == Later(logs)[0][..n - limit]
  {
    hide Growing;
    hide Older;
    LaterGrows(logs);
    OlderThanEntry(logs[0], Later(logs)[0], n - limit);
  }

  /** Follow `next_before` until it is empty. */
  ghost function PageThrough(logs: seq<seq<Entry>>, before: Option<int>, limit: nat, n: nat): seq<Entry>
    requires logs != [] && Growing(logs) && limit >= 1 && n <= |logs[0]| && Older(logs[0], before) == logs[0][..n]
    decreases n
  {
    hide *;
    var page := ListPage(logs[0], before, limit);
    PageOf(logs[0], before, limit, logs[0][..n]);
    if page.nextBefore.None? then page.items
    else
      NextPage(logs, limit, n);
      page.items + PageThrough(Later(logs), page.nextBefore, limit, n - limit)
  }

  lemma {:induction false} PagesAreWhole(logs: seq<seq<Entry>>, before: Option<int>, limit: nat, n: nat)
    requires logs != [] && Growing(logs) && limit >= 1 && n <= |logs[0]| && Older(logs[0], before) == logs[0][..n]
    ensures PageThrough(logs, before, limit, n) == Reversed(logs[0][..n])
    decreases n
  {
    hide ListPage;
    hide Older;
    hide Reversed;
    hide Growing;
    var older := logs[0][..n];
    PageOf(logs[0], before, limit, older);
    if n >= limit {
      NextPage(logs, limit, n);
      PagesAreWhole(Later(logs), ListPage(logs[0], before, limit).nextBefore, limit, n - limit);
      ReversedTake(older, limit);
      assert Later(logs)[0][..n - limit] == older[..n - limit];
    }
  }

  /** All pages, starting without `before`. */
  ghost function Paged(logs: seq<seq<Entry>>, limit: nat): seq<Entry>
    requires Growing(logs) && limit >= 1
  {
    OlderIsPrefix(logs[0], None);
    assert logs[0][..|logs[0]|] == logs[0];
    PageThrough(logs, None, limit, |logs[0]|)
  }

  /** Paging to the end returns every entry there was at the first call
      exactly once, newest first; entries appended between the calls never
      appear. It ends because every page but the last is full. */
  lemma PagingIsComplete(logs: seq<seq<Entry>>, limit: nat)
    requires Growing(logs) && limit >= 1
    ensures Paged(logs, limit) == Reversed(logs[0])
  {
    OlderIsPrefix(logs[0], None);
    assert logs[0][..|logs[0]|] == logs[0];
    PagesAreWhole(logs, None, limit, |logs[0]|);
  }
}
