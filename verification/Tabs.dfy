/** The open tabs, the runs they show, and the messages that background tasks
    send them (crates/sqail-ui/src/app.rs: `new_tab`, `close_tab`,
    `set_pinned`, the front half of `run_sql`, and `handle`). */
module TabSpec {
  import opened Prelude
  import opened Texts
  import opened ResultSpec
  import RunSqlSpec

  /** The run a tab shows. */
  datatype TabRun = TabRun(id: nat, state: RunState)

  /** `session` is a pair of a connection and a session on it. */
  datatype Tab = Tab(id: nat, pinned: bool, connection: Option<nat>, session: Option<(nat, nat)>,
                     autocommit: bool, inTransaction: bool, run: Option<TabRun>)

  datatype App = App(tabs: seq<Tab>, active: nat, nextTab: nat, nextRun: nat) {
    /** Ids are unique and never reused, and pinned tabs come first. */
    ghost predicate Valid() {
      active < |tabs| && DistinctIds(tabs) && IdsBelow(tabs, nextTab, nextRun) && PinnedFirst(tabs)
    }
  }

  datatype Msg =
    | SessionOpened(tab: nat, connection: nat, session: nat)
    | Query(tab: nat, run: nat, ev: Event)
    | QueryFailed(tab: nat, run: nat, error: string)

  /** What `run_sql` starts in the background, and on which connection. */
  datatype Task = Task(tab: nat, run: nat, connection: Option<nat>, given: Option<nat>, begin: bool)

  ghost predicate DistinctIds(tabs: seq<Tab>) {
    forall i, j :: 0 <= i < j < |tabs| ==> tabs[i].id != tabs[j].id
  }

  ghost predicate IdsBelow(tabs: seq<Tab>, nextTab: nat, nextRun: nat) {
    forall i :: 0 <= i < |tabs| ==> tabs[i].id < nextTab && (tabs[i].run.Some? ==> tabs[i].run.value.id < nextRun)
  }

  ghost predicate PinnedFirst(tabs: seq<Tab>) {
    forall i, j :: 0 <= i < j < |tabs| && tabs[j].pinned ==> tabs[i].pinned
  }

  /** `Tab::new`. */
  function FreshTab(id: nat, connection: Option<nat>): Tab {
    Tab(id, false, connection, None, true, false, None)
  }

  /** `new_tab`: at the end, active, on the active tab's connection unless
      another one is asked for. */
  function WithNew(app: App, connection: Option<nat>): App {
    var inherited := if app.active < |app.tabs| then app.tabs[app.active].connection else None;
    var tab := FreshTab(app.nextTab, if connection.Some? then connection else inherited);
    app.(tabs := app.tabs + [tab], active := |app.tabs|, nextTab := app.nextTab + 1)
  }

  function Without(tabs: seq<Tab>, idx: nat): seq<Tab>
    requires idx < |tabs|
  {
    tabs[..idx] + tabs[idx + 1..]
  }

  /** `close_tab`: never the last tab standing. */
  function Closed(app: App, idx: nat): App {
    if idx >= |app.tabs| then app
    else
      var rest := app.(tabs := Without(app.tabs, idx));
      var kept := if rest.tabs == [] then WithNew(rest, app.tabs[idx].connection) else rest;
      kept.(active := if kept.active < |kept.tabs| then kept.active else |kept.tabs| - 1)
  }

  /** `Vec::insert`. */
  function Insert(tabs: seq<Tab>, at: nat, tab: Tab): seq<Tab>
    requires at <= |tabs|
  {
    tabs[..at] + [tab] + tabs[at..]
  }

  function PinnedCount(tabs: seq<Tab>): (n: nat)
    ensures n <= |tabs|
  {
    if tabs == [] then 0 else (if tabs[0].pinned then 1 else 0) + PinnedCount(tabs[1..])
  }

  /** The position of the tab with this id, or the length if there is none. */
  function IndexOf(tabs: seq<Tab>, id: nat): (n: nat)
    ensures n <= |tabs| && (n < |tabs| ==> tabs[n].id == id)
    ensures forall i :: 0 <= i < n ==> tabs[i].id != id
  {
    if tabs == [] || tabs[0].id == id then 0 else 1 + IndexOf(tabs[1..], id)
  }

  /** `set_pinned`. */
  function Pinned(app: App, idx: nat, pinned: bool): App
    requires app.active < |app.tabs|
  {
    if idx >= |app.tabs| || app.tabs[idx].pinned == pinned then app
    else
      var rest := Without(app.tabs, idx);
      var tabs := Insert(rest, PinnedCount(rest), app.tabs[idx].(pinned := pinned));
      var found := IndexOf(tabs, app.tabs[app.active].id);
      app.(tabs := tabs, active := if found < |tabs| then found else 0)
  }

  /** The session a run may go on with: one on the tab's connection. */
  function Usable(t: Tab): Option<nat> {
    if t.session.Some? && t.connection == Some(t.session.value.0) then Some(t.session.value.1) else None
  }

  /** The guards of `run_sql`. */
  predicate MayRun(t: Tab, sql: string) {
    t.connection.Some? && !(t.run.Some? && t.run.value.state.running) && !Blank(sql)
  }

  /** Showing a new run. */
  function Running(app: App, idx: nat, sql: string): App {
    if idx >= |app.tabs| || !MayRun(app.tabs[idx], sql) then app
    else
      var tab := app.tabs[idx].(run := Some(TabRun(app.nextRun, NewRun)));
      app.(tabs := app.tabs[idx := tab], nextRun := app.nextRun + 1)
  }

  /** The task behind a new run. */
  function TaskOf(app: App, idx: nat): Task
    requires idx < |app.tabs|
  {
    var t := app.tabs[idx];
    Task(t.id, app.nextRun, t.connection, Usable(t), !t.autocommit && !t.inTransaction)
  }

  predicate ShowsRun(t: Tab, run: nat) {
    t.run.Some? && t.run.value.id == run
  }

  /** A message in the tab it is for. */
  function Delivered(t: Tab, msg: Msg): Tab {
    match msg
    case SessionOpened(_, connection, session) => t.(session := Some((connection, session)))
    case Query(_, run, ev) =>
      if !ShowsRun(t, run) then t
      else
        var state := ApplyEvent(t.run.value.state, ev);
        var shown := t.(run := Some(TabRun(run, state)));
        if ev.Done? then shown.(inTransaction := state.inTransaction == Some(true)) else shown
    case QueryFailed(_, run, error) =>
      var cleared := t.(session := None);
      if !ShowsRun(t, run) then cleared else cleared.(run := Some(TabRun(run, Fail(t.run.value.state, error))))
  }

  /** `handle`. */
  function Handled(app: App, msg: Msg): App {
    var i := IndexOf(app.tabs, msg.tab);
    if i < |app.tabs| then app.(tabs := app.tabs[i := Delivered(app.tabs[i], msg)]) else app
  }

  datatype Action =
    | New(connection: Option<nat>)
    | Close(idx: nat)
    | Pin(idx: nat, pinned: bool)
    | Select(idx: nat)
    | Connect(idx: nat, connection: Option<nat>)
    | Commits(idx: nat, auto: bool)
    | RunSql(idx: nat, sql: string)
    | Receive(msg: Msg)
    | Listed(list: seq<nat>)
    | Saved(added: nat)
    | Forget(idx: nat)

  /** Choosing another connection drops the session. */
  function Connected(t: Tab, connection: Option<nat>): Tab {
    if connection == t.connection then t else t.(connection := connection, session := None)
  }

  /** A tab on a connection that is not in the list any more loses it. */
  function Unlisted(t: Tab, list: seq<nat>): Tab {
    if t.connection.Some? && t.connection.value !in list then t.(connection := None) else t
  }

  predicate NoneBound(tabs: seq<Tab>, list: seq<nat>) {
    forall i :: 0 <= i < |tabs| ==> Unlisted(tabs[i], list).connection.None?
  }

  /** The list of connections arrived. If no tab is left with one, the active
      tab gets the first. */
  function Relisted(app: App, list: seq<nat>): App
    requires app.active < |app.tabs|
  {
    var tabs := seq(|app.tabs|, i requires 0 <= i < |app.tabs| => Unlisted(app.tabs[i], list));
    if NoneBound(app.tabs, list) && list != [] then
      app.(tabs := tabs[app.active := tabs[app.active].(connection := Some(list[0]))])
    else app.(tabs := tabs)
  }

  function Do(app: App, act: Action): App
    requires app.active < |app.tabs|
  {
    match act
    case New(connection) => WithNew(app, connection)
    case Close(idx) => Closed(app, idx)
    case Pin(idx, pinned) => Pinned(app, idx, pinned)
    case Select(idx) => if idx < |app.tabs| then app.(active := idx) else app
    case Connect(idx, connection) =>
      if idx < |app.tabs| then app.(tabs := app.tabs[idx := Connected(app.tabs[idx], connection)]) else app
    case Commits(idx, auto) =>
      if idx < |app.tabs| then app.(tabs := app.tabs[idx := app.tabs[idx].(autocommit := auto)]) else app
    case RunSql(idx, sql) => Running(app, idx, sql)
    case Receive(msg) => Handled(app, msg)
    case Listed(list) => Relisted(app, list)
    case Saved(connection) =>
      app.(tabs := app.tabs[app.active := WithConnection(app.tabs[app.active], connection)])
    case Forget(idx) =>
      if idx < |app.tabs| then app.(tabs := app.tabs[idx := app.tabs[idx].(inTransaction := false)]) else app
  }

  /** A connection was saved: the active tab takes it if it has none. */
  function WithConnection(t: Tab, connection: nat): Tab {
    if t.connection.None? then t.(connection := Some(connection)) else t
  }

  lemma WithoutKeeps(tabs: seq<Tab>, idx: nat, nextTab: nat, nextRun: nat)
    requires idx < |tabs| && DistinctIds(tabs) && IdsBelow(tabs, nextTab, nextRun) && PinnedFirst(tabs)
    ensures DistinctIds(Without(tabs, idx)) && IdsBelow(Without(tabs, idx), nextTab, nextRun)
    ensures PinnedFirst(Without(tabs, idx))
    ensures forall i :: 0 <= i < |tabs| - 1 ==> Without(tabs, idx)[i] == tabs[if i < idx then i else i + 1]
    ensures forall i :: 0 <= i < |tabs| - 1 ==> Without(tabs, idx)[i].id != tabs[idx].id
  {
  }

  /** Counting the pinned tabs finds where they end. */
  lemma {:induction false} PinnedEnd(tabs: seq<Tab>)
    requires PinnedFirst(tabs)
    ensures forall i :: 0 <= i < |tabs| ==> (tabs[i].pinned <==> i < PinnedCount(tabs))
  {
    if tabs != [] {
      PinnedEnd(tabs[1..]);
      assert forall i :: 1 <= i < |tabs| ==> tabs[i] == tabs[1..][i - 1];
      if !tabs[0].pinned && PinnedCount(tabs[1..]) > 0 {
        assert tabs[1].pinned;
      }
    }
  }

  lemma ClosedIsValid(app: App, idx: nat)
    requires app.Valid()
    ensures Closed(app, idx).Valid()
  {
    if idx < |app.tabs| {
      WithoutKeeps(app.tabs, idx, app.nextTab, app.nextRun);
    }
  }

  /** `tabs` is `rest` with `tab` at index `at`. */
  ghost predicate IsInsert(tabs: seq<Tab>, rest: seq<Tab>, at: nat, tab: Tab) {
    at <= |rest| && |tabs| == |rest| + 1 && tabs[at] == tab &&
    forall i :: 0 <= i < |tabs| && i != at ==> tabs[i] == rest[if i < at then i else i - 1]
  }

  lemma InsertAt(rest: seq<Tab>, at: nat, tab: Tab)
    requires at <= |rest|
    ensures IsInsert(Insert(rest, at, tab), rest, at, tab)
    ensures Without(Insert(rest, at, tab), at) == rest
  {
    var tabs := Insert(rest, at, tab);
    assert tabs[..at] == rest[..at] && tabs[at + 1..] == rest[at..];
    assert rest == rest[..at] + rest[at..];
  }

  lemma InsertIds(tabs: seq<Tab>, rest: seq<Tab>, at: nat, tab: Tab, nextTab: nat, nextRun: nat)
    requires IsInsert(tabs, rest, at, tab) && DistinctIds(rest) && IdsBelow(rest, nextTab, nextRun)
    requires tab.id < nextTab && (tab.run.Some? ==> tab.run.value.id < nextRun)
    requires forall i :: 0 <= i < |rest| ==> rest[i].id != tab.id
    ensures DistinctIds(tabs) && IdsBelow(tabs, nextTab, nextRun)
  {
    forall i, j | 0 <= i < j < |tabs| ensures tabs[i].id != tabs[j].id {
      assert i != at ==> tabs[i] == rest[if i < at then i else i - 1];
      assert j != at ==> tabs[j] == rest[if j < at then j else j - 1];
    }
  }

  /** At the place for its kind. */
  lemma InsertPinned(tabs: seq<Tab>, rest: seq<Tab>, tab: Tab)
    requires IsInsert(tabs, rest, PinnedCount(rest), tab) && PinnedFirst(rest)
    ensures PinnedFirst(tabs)
  {
    var at := PinnedCount(rest);
    PinnedEnd(rest);
    hide PinnedCount;
    forall i, j | 0 <= i < j < |tabs| && tabs[j].pinned ensures tabs[i].pinned {
      assert i != at ==> tabs[i] == rest[if i < at then i else i - 1];
      assert j != at ==> tabs[j] == rest[if j < at then j else j - 1];
    }
  }

  lemma ActiveFound(tabs: seq<Tab>, id: nat, k: nat)
    requires k < |tabs| && tabs[k].id == id
    ensures IndexOf(tabs, id) < |tabs| && tabs[IndexOf(tabs, id)].id == id
  {
  }

  lemma PinnedIsValid(app: App, idx: nat, pinned: bool)
    requires app.Valid()
    ensures Pinned(app, idx, pinned).Valid()
  {
    if idx < |app.tabs| && app.tabs[idx].pinned != pinned {
      WithoutKeeps(app.tabs, idx, app.nextTab, app.nextRun);
      var (rest, tab) := (Without(app.tabs, idx), app.tabs[idx].(pinned := pinned));
      var at := PinnedCount(rest);
      InsertAt(rest, at, tab);
      InsertIds(Insert(rest, at, tab), rest, at, tab, app.nextTab, app.nextRun);
      InsertPinned(Insert(rest, at, tab), rest, tab);
      hide Without;
      hide Insert;
      hide DistinctIds;
      hide IdsBelow;
      hide PinnedFirst;
    }
  }

  lemma ReplaceKeeps(app: App, i: nat, tab: Tab, nextRun: nat)
    requires app.Valid() && i < |app.tabs| && app.nextRun <= nextRun
    requires tab.id == app.tabs[i].id && tab.pinned == app.tabs[i].pinned
    requires tab.run.Some? ==> tab.run.value.id < nextRun
    ensures app.(tabs := app.tabs[i := tab], nextRun := nextRun).Valid()
  {
  }

  lemma NewIsValid(app: App, connection: Option<nat>)
    requires app.Valid()
    ensures WithNew(app, connection).Valid()
  {
  }

  /** Actions that change one tab where it is. */
  lemma SetIsValid(app: App, act: Action)
    requires app.Valid() && (act.Connect? || act.Commits? || act.Forget? || act.Saved? || act.Select?)
    ensures Do(app, act).Valid()
  {
    var idx := if act.Saved? then app.active else act.idx;
    if idx < |app.tabs| && !act.Select? {
      var t := app.tabs[idx];
      ReplaceKeeps(app, idx, if act.Connect? then Connected(t, act.connection)
                             else if act.Commits? then t.(autocommit := act.auto)
                             else if act.Saved? then WithConnection(t, act.added)
                             else t.(inTransaction := false), app.nextRun);
      hide App.Valid;
    } else {
      hide DistinctIds;
      hide IdsBelow;
      hide PinnedFirst;
    }
  }

  lemma RunIsValid(app: App, idx: nat, sql: string)
    requires app.Valid()
    ensures Running(app, idx, sql).Valid()
  {
    if idx < |app.tabs| {
      ReplaceKeeps(app, idx, app.tabs[idx].(run := Some(TabRun(app.nextRun, NewRun))), app.nextRun + 1);
    }
    hide App.Valid;
  }

  lemma HandledIsValid(app: App, msg: Msg)
    requires app.Valid()
    ensures Handled(app, msg).Valid()
  {
    hide ApplyEvent;
    hide Fail;
    var i := IndexOf(app.tabs, msg.tab);
    if i < |app.tabs| {
      ReplaceKeeps(app, i, Delivered(app.tabs[i], msg), app.nextRun);
    }
    hide App.Valid;
  }

  lemma DoIsValid(app: App, act: Action)
    requires app.Valid()
    ensures Do(app, act).Valid()
  {
    if act.Connect? || act.Commits? || act.Forget? || act.Saved? || act.Select? {
      SetIsValid(app, act);
      hide *;
    } else {
      hide App.Valid;
      match act
      case New(connection) => NewIsValid(app, connection);
      case Close(idx) => ClosedIsValid(app, idx);
      case Pin(idx, pinned) => PinnedIsValid(app, idx, pinned);
      case RunSql(idx, sql) => RunIsValid(app, idx, sql);
      case Receive(msg) => HandledIsValid(app, msg);
      case Listed(list) => RelistedIsValid(app, list);
    }
  }

  lemma RelistedIsValid(app: App, list: seq<nat>)
    requires app.Valid()
    ensures Relisted(app, list).Valid()
  {
    hide NoneBound;
    var after := Relisted(app, list);
    assert forall i :: 0 <= i < |app.tabs| ==>
      after.tabs[i].id == app.tabs[i].id && after.tabs[i].pinned == app.tabs[i].pinned && after.tabs[i].run == app.tabs[i].run;
    hide Relisted;
  }

  /** Closing another tab keeps the active one in front exactly if that tab is
      to its right, or the active tab is the last one. */
  lemma ClosingKeepsActiveIff(app: App, idx: nat)
    requires app.Valid() && idx < |app.tabs| && idx != app.active
    ensures var after := Closed(app, idx);
            after.active < |after.tabs| &&
            (after.tabs[after.active].id == app.tabs[app.active].id <==>
             idx > app.active || app.active == |app.tabs| - 1)
  {
    WithoutKeeps(app.tabs, idx, app.nextTab, app.nextRun);
    hide Without;
  }

  /** Where the tab at index `a` ends up. */
  lemma Moved(tabs: seq<Tab>, rest: seq<Tab>, at: nat, tab: Tab, was: seq<Tab>, idx: nat, a: nat) returns (k: nat)
    requires IsInsert(tabs, rest, at, tab) && idx < |was| && a < |was| && tab.id == was[idx].id
    requires rest == Without(was, idx)
    ensures k < |tabs| && tabs[k].id == was[a].id
  {
    if a == idx {
      k := at;
    } else {
      var b := if a < idx then a else a - 1;
      assert rest[b] == was[a];
      k := if b < at then b else b + 1;
      assert tabs[k] == rest[b];
    }
  }

  lemma PinnedIs(app: App, idx: nat, pinned: bool)
    requires app.active < |app.tabs| && idx < |app.tabs| && app.tabs[idx].pinned != pinned
    ensures var rest := Without(app.tabs, idx);
            var tabs := Insert(rest, PinnedCount(rest), app.tabs[idx].(pinned := pinned));
            Pinned(app, idx, pinned).tabs == tabs &&
            (IndexOf(tabs, app.tabs[app.active].id) < |tabs| ==>
             Pinned(app, idx, pinned).active == IndexOf(tabs, app.tabs[app.active].id))
  {
    hide Without;
    hide Insert;
    hide IndexOf;
    hide PinnedCount;
  }

  /** Pinning moves one tab: the others keep their order, and the active tab
      stays in front. */
  lemma PinningMovesOne(app: App, idx: nat, pinned: bool)
    requires app.active < |app.tabs| && idx < |app.tabs| && app.tabs[idx].pinned != pinned
    ensures var after := Pinned(app, idx, pinned);
            var at := PinnedCount(Without(app.tabs, idx));
            |after.tabs| == |app.tabs| && after.tabs[at] == app.tabs[idx].(pinned := pinned) &&
            Without(after.tabs, at) == Without(app.tabs, idx) && after.active < |after.tabs| &&
            after.tabs[after.active].id == app.tabs[app.active].id
  {
    var (rest, tab) := (Without(app.tabs, idx), app.tabs[idx].(pinned := pinned));
    var at := PinnedCount(rest);
    var tabs := Insert(rest, at, tab);
    InsertAt(rest, at, tab);
    assert |tabs| == |app.tabs| && tabs[at] == tab;
    PinnedIs(app, idx, pinned);
    hide *;
    var k := Moved(tabs, rest, at, tab, app.tabs, idx, app.active);
    ActiveFound(tabs, app.tabs[app.active].id, k);
  }

  /** Tab `id`, if it is open. */
  function TabOf(tabs: seq<Tab>, id: nat): Option<Tab> {
    var i := IndexOf(tabs, id);
    if i < |tabs| then Some(tabs[i]) else None
  }

  /** What run `run` of tab `id` shows, while that tab shows it. */
  function Shown(app: App, id: nat, run: nat): Option<RunState> {
    var t := TabOf(app.tabs, id);
    if t.Some? && ShowsRun(t.value, run) then Some(t.value.run.value.state) else None
  }

  /** The input a message is for run `run` of tab `id`; other messages are
      none of its business. */
  function InputOf(act: Action, id: nat, run: nat): seq<Input> {
    match act
    case Receive(Query(tab, r, ev)) => if tab == id && r == run then [Arrives(ev)] else []
    case Receive(QueryFailed(tab, r, error)) => if tab == id && r == run then [Breaks(error)] else []
    case _ => []
  }

  function Inputs(acts: seq<Action>, id: nat, run: nat): seq<Input>
    decreases |acts|
  {
    if acts == [] then [] else InputOf(acts[0], id, run) + Inputs(acts[1..], id, run)
  }

  /** A run fed with inputs. */
  function Fed(r: RunState, inputs: seq<Input>): RunState
    decreases |inputs|
  {
    if inputs == [] then r
    else Fed(match inputs[0] case Arrives(ev) => ApplyEvent(r, ev) case Breaks(error) => Fail(r, error) case _ => r,
             inputs[1..])
  }

  ghost function DoAll(app: App, acts: seq<Action>): App
    requires app.Valid()
    ensures DoAll(app, acts).Valid()
    decreases |acts|
  {
    if acts == [] then app
    else
      DoIsValid(app, acts[0]);
      DoAll(Do(app, acts[0]), acts[1..])
  }

  lemma {:induction false} TabIs(tabs: seq<Tab>, i: nat)
    requires DistinctIds(tabs) && i < |tabs|
    ensures TabOf(tabs, tabs[i].id) == Some(tabs[i])
  {
    var k := IndexOf(tabs, tabs[i].id);
    assert k <= i;
  }

  lemma TabIsNot(tabs: seq<Tab>, id: nat)
    requires forall i :: 0 <= i < |tabs| ==> tabs[i].id != id
    ensures TabOf(tabs, id) == None
  {
  }

  /** Changing one tab changes no other. */
  lemma TabReplaced(tabs: seq<Tab>, i: nat, tab: Tab, id: nat)
    requires DistinctIds(tabs) && i < |tabs| && tab.id == tabs[i].id
    ensures TabOf(tabs[i := tab], id) == if id == tab.id then Some(tab) else TabOf(tabs, id)
  {
    var after := tabs[i := tab];
    assert DistinctIds(after);
    if id == tab.id {
      TabIs(after, i);
    } else {
      var k := IndexOf(tabs, id);
      if k < |tabs| {
        assert after[k] == tabs[k];
        TabIs(after, k);
      } else {
        TabIsNot(after, id);
      }
    }
  }

  /** How one action touches tab `id`, unless it closes it. */
  function Touched(app: App, act: Action, t: Tab): Tab {
    match act
    case Pin(idx, pinned) => if IsAt(app, idx, t.id) then t.(pinned := pinned) else t
    case Connect(idx, connection) => if IsAt(app, idx, t.id) then Connected(t, connection) else t
    case Commits(idx, auto) => if IsAt(app, idx, t.id) then t.(autocommit := auto) else t
    case RunSql(idx, sql) =>
      if IsAt(app, idx, t.id) && MayRun(t, sql) then t.(run := Some(TabRun(app.nextRun, NewRun))) else t
    case Receive(msg) => if msg.tab == t.id then Delivered(t, msg) else t
    case Listed(list) =>
      if NoneBound(app.tabs, list) && list != [] && IsAt(app, app.active, t.id) then
        Unlisted(t, list).(connection := Some(list[0]))
      else Unlisted(t, list)
    case Saved(connection) => if IsAt(app, app.active, t.id) then WithConnection(t, connection) else t
    case Forget(idx) => if IsAt(app, idx, t.id) then t.(inTransaction := false) else t
    case _ => t
  }

  predicate IsAt(app: App, idx: nat, id: nat) {
    idx < |app.tabs| && app.tabs[idx].id == id
  }

  lemma WithoutTab(tabs: seq<Tab>, idx: nat, id: nat)
    requires DistinctIds(tabs) && idx < |tabs|
    ensures TabOf(Without(tabs, idx), id) == if id == tabs[idx].id then None else TabOf(tabs, id)
  {
    var rest := Without(tabs, idx);
    assert forall i :: 0 <= i < |rest| ==> rest[i] == tabs[if i < idx then i else i + 1];
    assert DistinctIds(rest);
    var k := IndexOf(tabs, id);
    if id == tabs[idx].id {
      TabIsNot(rest, id);
    } else if k < |tabs| {
      assert rest[if k < idx then k else k - 1] == tabs[k];
      TabIs(rest, if k < idx then k else k - 1);
    } else {
      TabIsNot(rest, id);
    }
  }

  lemma AppendedTab(tabs: seq<Tab>, tab: Tab, id: nat)
    requires DistinctIds(tabs + [tab])
    ensures TabOf(tabs + [tab], id) == if id == tab.id then Some(tab) else TabOf(tabs, id)
  {
    var all := tabs + [tab];
    var k := IndexOf(tabs, id);
    if id == tab.id {
      assert all[|tabs|] == tab;
      TabIs(all, |tabs|);
      assert forall i :: 0 <= i < |tabs| ==> all[i] == tabs[i];
    } else if k < |tabs| {
      assert all[k] == tabs[k];
      TabIs(all, k);
    } else {
      TabIsNot(all, id);
    }
  }

  lemma ClosedTab(app: App, idx: nat, id: nat)
    requires app.Valid() && idx < |app.tabs| && id < app.nextTab
    ensures TabOf(Closed(app, idx).tabs, id) ==
            if id == app.tabs[idx].id then None else TabOf(app.tabs, id)
  {
    WithoutTab(app.tabs, idx, id);
    var rest := app.(tabs := Without(app.tabs, idx));
    if rest.tabs == [] {
      var tab := FreshTab(app.nextTab, WithNew(rest, app.tabs[idx].connection).tabs[0].connection);
      AppendedTab([], tab, id);
      assert Closed(app, idx).tabs == [] + [tab];
    } else {
      assert Closed(app, idx).tabs == rest.tabs;
    }
  }

  lemma InsertedTab(tabs: seq<Tab>, at: nat, tab: Tab, id: nat)
    requires DistinctIds(tabs) && at < |tabs| && tabs[at] == tab
    ensures TabOf(tabs, id) == if id == tab.id then Some(tab) else TabOf(Without(tabs, at), id)
  {
    WithoutTab(tabs, at, id);
    TabIs(tabs, at);
  }

  lemma PinnedTab(app: App, idx: nat, pinned: bool, id: nat)
    requires app.Valid() && idx < |app.tabs| && app.tabs[idx].pinned != pinned
    ensures var tab := app.tabs[idx].(pinned := pinned);
            TabOf(Pinned(app, idx, pinned).tabs, id) == if id == tab.id then Some(tab) else TabOf(app.tabs, id)
  {
    var after := Pinned(app, idx, pinned);
    PinnedIsValid(app, idx, pinned);
    WithoutTab(app.tabs, idx, id);
    assert DistinctIds(after.tabs);
    hide *;
    PinningMovesOne(app, idx, pinned);
    InsertedTab(after.tabs, PinnedCount(Without(app.tabs, idx)), app.tabs[idx].(pinned := pinned), id);
  }

  /** What an action makes of tab `id`. */
  function Outcome(app: App, act: Action, id: nat): Option<Tab> {
    var t := TabOf(app.tabs, id);
    if t.None? || (act.Close? && IsAt(app, act.idx, id)) then None else Some(Touched(app, act, t.value))
  }

  lemma ReplacedTab(app: App, i: nat, tab: Tab, id: nat)
    requires app.Valid() && i < |app.tabs| && tab.id == app.tabs[i].id
    ensures TabOf(app.tabs[i := tab], id) ==
            if IsAt(app, i, id) then Some(tab) else TabOf(app.tabs, id)
    ensures IsAt(app, i, id) ==> TabOf(app.tabs, id) == Some(app.tabs[i])
  {
    TabIs(app.tabs, i);
    TabReplaced(app.tabs, i, tab, id);
  }

  lemma TabHasId(tabs: seq<Tab>, id: nat)
    ensures TabOf(tabs, id).Some? ==> TabOf(tabs, id).value.id == id
  {
  }

  lemma NewTouches(app: App, connection: Option<nat>, id: nat)
    requires app.Valid() && id < app.nextTab
    ensures TabOf(Do(app, New(connection)).tabs, id) == TabOf(app.tabs, id)
  {
    DoIsValid(app, New(connection));
    AppendedTab(app.tabs, WithNew(app, connection).tabs[|app.tabs|], id);
  }

  lemma CloseTouches(app: App, idx: nat, id: nat)
    requires app.Valid() && id < app.nextTab
    ensures TabOf(Do(app, Close(idx)).tabs, id) == if IsAt(app, idx, id) then None else TabOf(app.tabs, id)
  {
    if idx < |app.tabs| {
      ClosedTab(app, idx, id);
    }
    hide Closed;
    hide TabOf;
  }

  lemma PinTouches(app: App, idx: nat, pinned: bool, id: nat)
    requires app.Valid()
    ensures TabOf(Do(app, Pin(idx, pinned)).tabs, id) == Outcome(app, Pin(idx, pinned), id)
  {
    TabHasId(app.tabs, id);
    if idx < |app.tabs| {
      TabIs(app.tabs, idx);
      if app.tabs[idx].pinned != pinned {
        PinnedTab(app, idx, pinned, id);
      }
    }
    hide TabOf;
    hide Pinned;
    PinnedWhen(app, idx, pinned);
  }

  lemma PinnedWhen(app: App, idx: nat, pinned: bool)
    requires app.active < |app.tabs|
    ensures idx >= |app.tabs| || app.tabs[idx].pinned == pinned ==> Pinned(app, idx, pinned) == app
  {
  }

  lemma RunTouches(app: App, idx: nat, sql: string, id: nat)
    requires app.Valid()
    ensures TabOf(Do(app, RunSql(idx, sql)).tabs, id) == Outcome(app, RunSql(idx, sql), id)
  {
    TabHasId(app.tabs, id);
    if idx < |app.tabs| {
      ReplacedTab(app, idx, app.tabs[idx].(run := Some(TabRun(app.nextRun, NewRun))), id);
    }
    hide TabOf;
    hide MayRun;
    hide NewRun;
  }

  lemma SetTouches(app: App, act: Action, id: nat)
    requires app.Valid() && (act.Connect? || act.Commits? || act.Forget?)
    ensures TabOf(Do(app, act).tabs, id) == Outcome(app, act, id)
  {
    TabHasId(app.tabs, id);
    if act.idx < |app.tabs| {
      var t := app.tabs[act.idx];
      ReplacedTab(app, act.idx, if act.Connect? then Connected(t, act.connection)
                                else if act.Commits? then t.(autocommit := act.auto)
                                else t.(inTransaction := false), id);
    }
    hide TabOf;
  }

  lemma SaveTouches(app: App, connection: nat, id: nat)
    requires app.Valid()
    ensures TabOf(Do(app, Saved(connection)).tabs, id) == Outcome(app, Saved(connection), id)
  {
    TabHasId(app.tabs, id);
    ReplacedTab(app, app.active, WithConnection(app.tabs[app.active], connection), id);
    hide TabOf;
  }

  /** The same tabs with other contents are found in the same places. */
  lemma {:induction false} SameIds(a: seq<Tab>, b: seq<Tab>, id: nat)
    requires |a| == |b| && forall i :: 0 <= i < |a| ==> a[i].id == b[i].id
    ensures IndexOf(a, id) == IndexOf(b, id)
  {
    if a != [] && a[0].id != id {
      SameIds(a[1..], b[1..], id);
    }
  }

  lemma ListTouches(app: App, list: seq<nat>, id: nat)
    requires app.Valid()
    ensures TabOf(Do(app, Listed(list)).tabs, id) == Outcome(app, Listed(list), id)
  {
    var (a, b) := (app.tabs, Relisted(app, list).tabs);
    assert app.active < |a| && DistinctIds(a) && |a| == |b|;
    assert Do(app, Listed(list)).tabs == b;
    hide *;
    forall i: nat | i < |a| ensures b[i] == Touched(app, Listed(list), a[i]) && b[i].id == a[i].id {
      RelistedAt(app, list, i);
    }
    SameIds(a, b, id);
    TabTouched(app, list, b, id);
  }

  lemma RelistedAt(app: App, list: seq<nat>, i: nat)
    requires app.active < |app.tabs| && i < |app.tabs| && DistinctIds(app.tabs)
    ensures |Relisted(app, list).tabs| == |app.tabs|
    ensures Relisted(app, list).tabs[i] == Touched(app, Listed(list), app.tabs[i])
    ensures Relisted(app, list).tabs[i].id == app.tabs[i].id
  {
    hide NoneBound;
    assert IsAt(app, app.active, app.tabs[i].id) <==> i == app.active;
  }

  lemma TabTouched(app: App, list: seq<nat>, b: seq<Tab>, id: nat)
    requires |b| == |app.tabs| && IndexOf(app.tabs, id) == IndexOf(b, id)
    requires forall i: nat :: i < |b| ==> b[i] == Touched(app, Listed(list), app.tabs[i])
    ensures TabOf(b, id) == Outcome(app, Listed(list), id)
  {
    hide IndexOf;
    hide Touched;
  }

  lemma MessageTouches(app: App, msg: Msg, id: nat)
    requires app.Valid()
    ensures TabOf(Do(app, Receive(msg)).tabs, id) == Outcome(app, Receive(msg), id)
  {
    hide ApplyEvent;
    hide Fail;
    TabHasId(app.tabs, id);
    var i := IndexOf(app.tabs, msg.tab);
    if i < |app.tabs| {
      assert Delivered(app.tabs[i], msg).id == msg.tab;
      ReplacedTab(app, i, Delivered(app.tabs[i], msg), id);
    }
    hide Delivered;
  }

  /** One action touches an open tab just as `Touched` says, or closes it; a
      closed tab stays closed. */
  lemma ActionTouches(app: App, act: Action, id: nat)
    requires app.Valid() && id < app.nextTab
    ensures TabOf(Do(app, act).tabs, id) == Outcome(app, act, id)
  {
    match act
    case New(connection) => NewTouches(app, connection, id); hide TabOf;
    case Close(idx) => CloseTouches(app, idx, id); hide TabOf; hide Do;
    case Pin(idx, pinned) => hide *; PinTouches(app, idx, pinned, id);
    case Select(_) => hide TabOf;
    case Connect(_, _) => hide *; SetTouches(app, act, id);
    case Commits(_, _) => hide *; SetTouches(app, act, id);
    case RunSql(idx, sql) => hide *; RunTouches(app, idx, sql, id);
    case Receive(msg) => hide *; MessageTouches(app, msg, id);
    case Listed(list) => hide *; ListTouches(app, list, id);
    case Saved(connection) => hide *; SaveTouches(app, connection, id);
    case Forget(_) => hide *; SetTouches(app, act, id);
  }

  lemma RunInTab(app: App, act: Action, t: Tab, run: nat)
    requires run < app.nextRun && ShowsRun(Touched(app, act, t), run)
    ensures ShowsRun(t, run)
    ensures Touched(app, act, t).run.value.state == Fed(t.run.value.state, InputOf(act, t.id, run))
  {
    hide ApplyEvent;
    hide Fail;
  }

  lemma RunStep(app: App, act: Action, id: nat, run: nat)
    requires app.Valid() && id < app.nextTab && run < app.nextRun && Shown(Do(app, act), id, run).Some?
    ensures Shown(app, id, run).Some?
    ensures Shown(Do(app, act), id, run).value == Fed(Shown(app, id, run).value, InputOf(act, id, run))
  {
    ActionTouches(app, act, id);
    TabHasId(app.tabs, id);
    var t := TabOf(app.tabs, id);
    hide TabOf;
    hide Do;
    hide Touched;
    hide Fed;
    hide InputOf;
    RunInTab(app, act, t.value, run);
  }

  lemma {:induction false} FedJoins(r: RunState, a: seq<Input>, b: seq<Input>)
    ensures Fed(r, a + b) == Fed(Fed(r, a), b)
    decreases |a|
  {
    if a == [] {
      assert a + b == b;
    } else {
      assert (a + b)[1..] == a[1..] + b;
      hide ApplyEvent;
      hide Fail;
      var next := match a[0] case Arrives(ev) => ApplyEvent(r, ev) case Breaks(error) => Fail(r, error) case _ => r;
      FedJoins(next, a[1..], b);
    }
  }

  lemma IdsGrow(app: App, act: Action)
    requires app.active < |app.tabs|
    ensures app.nextTab <= Do(app, act).nextTab && app.nextRun <= Do(app, act).nextRun
  {
  }

  /** Whatever happens to the tabs and whatever other tasks send, in whatever
      order: as long as a tab shows a run, it shows exactly what that run's
      own messages make of it, and a run that is gone stays gone. */
  lemma {:induction false} RunsSeeOnlyTheirOwn(app: App, acts: seq<Action>, id: nat, run: nat)
    requires app.Valid() && id < app.nextTab && run < app.nextRun && Shown(DoAll(app, acts), id, run).Some?
    ensures Shown(app, id, run).Some?
    ensures Shown(DoAll(app, acts), id, run).value == Fed(Shown(app, id, run).value, Inputs(acts, id, run))
    decreases |acts|
  {
    if acts != [] {
      var next := Do(app, acts[0]);
      DoIsValid(app, acts[0]);
      IdsGrow(app, acts[0]);
      hide Shown;
      hide Do;
      RunsSeeOnlyTheirOwn(next, acts[1..], id, run);
      RunStep(app, acts[0], id, run);
      hide Fed;
      FedJoins(Shown(app, id, run).value, InputOf(acts[0], id, run), Inputs(acts[1..], id, run));
    }
  }

  lemma {:induction false} FedIsAfter(num: Numbers, w: World, inputs: seq<Input>)
    requires Possible(num, w, inputs) && forall i :: 0 <= i < |inputs| ==> !inputs[i].Sorts?
    ensures After(num, w, inputs).run == Fed(w.run, inputs)
    decreases |inputs|
  {
    if inputs != [] {
      hide ApplyEvent;
      hide Fail;
      hide Invariant;
      FedIsAfter(num, Step(num, w, inputs[0]), inputs[1..]);
    }
  }

  lemma {:induction false} InputsDoNotSort(acts: seq<Action>, id: nat, run: nat)
    ensures forall i :: 0 <= i < |Inputs(acts, id, run)| ==> !Inputs(acts, id, run)[i].Sorts?
    decreases |acts|
  {
    if acts != [] {
      InputsDoNotSort(acts[1..], id, run);
    }
  }

  lemma RunStarts(app: App, idx: nat, sql: string)
    requires app.Valid() && idx < |app.tabs| && MayRun(app.tabs[idx], sql)
    ensures Shown(Running(app, idx, sql), app.tabs[idx].id, app.nextRun) == Some(NewRun)
  {
    ReplacedTab(app, idx, app.tabs[idx].(run := Some(TabRun(app.nextRun, NewRun))), app.tabs[idx].id);
  }

  /** From the click to the grid: if a task's messages follow the documented
      order, then whenever its tab still shows that run, the grid shows the
      rows sent so far, whatever else has gone on in the window. */
  lemma ShownRunsShowWhatWasSent(num: Numbers, app: App, idx: nat, sql: string, acts: seq<Action>)
    requires app.Valid() && idx < |app.tabs| && MayRun(app.tabs[idx], sql)
    requires Possible(num, Fresh, Inputs(acts, app.tabs[idx].id, app.nextRun))
    requires Running(app, idx, sql).Valid()
    requires Shown(DoAll(Running(app, idx, sql), acts), app.tabs[idx].id, app.nextRun).Some?
    ensures var w := After(num, Fresh, Inputs(acts, app.tabs[idx].id, app.nextRun));
            Shown(DoAll(Running(app, idx, sql), acts), app.tabs[idx].id, app.nextRun) == Some(w.run) && Invariant(w)
  {
    var (id, run) := (app.tabs[idx].id, app.nextRun);
    var started := Running(app, idx, sql);
    RunStarts(app, idx, sql);
    assert id < started.nextTab && run < started.nextRun;
    assert Fresh.run == NewRun && Invariant(Fresh);
    hide *;
    RunsSeeOnlyTheirOwn(started, acts, id, run);
    InputsDoNotSort(acts, id, run);
    FedIsAfter(num, Fresh, Inputs(acts, id, run));
    InvariantHolds(num, Fresh, Inputs(acts, id, run));
  }

  /** Where `review_edits` will send the edits of the run a tab shows: to the
      tab's connection at that moment. */
  function ReviewTarget(t: Tab): Option<nat> {
    if t.run.Some? then t.connection else None
  }

  /** The connection an action gives a tab, or takes from it. */
  function Binding(app: App, act: Action, t: Tab): Option<Option<nat>> {
    match act
    case Connect(idx, connection) => if IsAt(app, idx, t.id) then Some(connection) else None
    case Listed(list) =>
      if NoneBound(app.tabs, list) && list != [] && IsAt(app, app.active, t.id) then Some(Some(list[0]))
      else if t.connection.Some? && t.connection.value !in list then Some(None)
      else None
    case Saved(connection) =>
      if IsAt(app, app.active, t.id) && t.connection.None? then Some(Some(connection)) else None
    case _ => None
  }

  /** The last connection tab `id` was given, starting with `current`. */
  ghost function LastBinding(app: App, acts: seq<Action>, id: nat, current: Option<nat>): Option<nat>
    requires app.Valid()
    decreases |acts|
  {
    if acts == [] then current
    else
      DoIsValid(app, acts[0]);
      var t := TabOf(app.tabs, id);
      var bound := if t.Some? then Binding(app, acts[0], t.value) else None;
      LastBinding(Do(app, acts[0]), acts[1..], id, if bound.Some? then bound.value else current)
  }

  lemma BindingIs(app: App, act: Action, t: Tab)
    ensures Touched(app, act, t).connection ==
            if Binding(app, act, t).Some? then Binding(app, act, t).value else t.connection
  {
    hide ApplyEvent;
    hide Fail;
    hide NoneBound;
  }

  /** Only choosing one, the list of connections and saving one give a tab
      its connection. */
  lemma {:induction false} ConnectionIsLastBinding(app: App, acts: seq<Action>, id: nat)
    requires app.Valid() && id < app.nextTab && TabOf(DoAll(app, acts).tabs, id).Some?
    ensures TabOf(app.tabs, id).Some?
    ensures TabOf(DoAll(app, acts).tabs, id).value.connection ==
            LastBinding(app, acts, id, TabOf(app.tabs, id).value.connection)
    decreases |acts|
  {
    if acts != [] {
      DoIsValid(app, acts[0]);
      IdsGrow(app, acts[0]);
      hide TabOf;
      hide Do;
      ConnectionIsLastBinding(Do(app, acts[0]), acts[1..], id);
      ActionTouches(app, acts[0], id);
      BindingIs(app, acts[0], TabOf(app.tabs, id).value);
      hide Touched;
      hide Binding;
    }
  }

  /** The session an action brings to a tab, or takes from it: a task opened
      one, a run failed, or another connection is chosen. */
  function SessionBrought(app: App, act: Action, t: Tab): Option<Option<(nat, nat)>> {
    if act.Receive? && act.msg.tab == t.id && act.msg.SessionOpened? then Some(Some((act.msg.connection, act.msg.session)))
    else if act.Receive? && act.msg.tab == t.id && act.msg.QueryFailed? then Some(None)
    else if act.Connect? && IsAt(app, act.idx, t.id) && act.connection != t.connection then Some(None)
    else None
  }

  /** The session tab `id` has after `acts`, starting with `current`. */
  ghost function LastSession(app: App, acts: seq<Action>, id: nat, current: Option<(nat, nat)>): Option<(nat, nat)>
    requires app.Valid()
    decreases |acts|
  {
    if acts == [] then current
    else
      DoIsValid(app, acts[0]);
      var t := TabOf(app.tabs, id);
      var brought := if t.Some? then SessionBrought(app, acts[0], t.value) else None;
      LastSession(Do(app, acts[0]), acts[1..], id, if brought.Some? then brought.value else current)
  }

  lemma BroughtIs(app: App, act: Action, t: Tab)
    ensures Touched(app, act, t).session ==
            if SessionBrought(app, act, t).Some? then SessionBrought(app, act, t).value else t.session
  {
    hide ApplyEvent;
    hide Fail;
    hide NoneBound;
  }

  /** A tab's session is the one opened for it last. A failed run or the choice
      of another connection takes it away, and choosing the old connection
      again does not bring it back. */
  lemma {:induction false} SessionIsLastOpened(app: App, acts: seq<Action>, id: nat)
    requires app.Valid() && id < app.nextTab && TabOf(DoAll(app, acts).tabs, id).Some?
    ensures TabOf(app.tabs, id).Some?
    ensures TabOf(DoAll(app, acts).tabs, id).value.session ==
            LastSession(app, acts, id, TabOf(app.tabs, id).value.session)
    decreases |acts|
  {
    if acts != [] {
      DoIsValid(app, acts[0]);
      IdsGrow(app, acts[0]);
      hide TabOf;
      hide Do;
      SessionIsLastOpened(Do(app, acts[0]), acts[1..], id);
      ActionTouches(app, acts[0], id);
      BroughtIs(app, acts[0], TabOf(app.tabs, id).value);
      hide Touched;
      hide SessionBrought;
    }
  }

  /** The edits of a run go to the connection it was read from if and only if
      the connection its tab was given last is still that one, whatever else
      has gone on in the window: nothing ties the edits to the run's own. */
  lemma EditsGoWhereReadIff(app: App, idx: nat, sql: string, acts: seq<Action>)
    requires app.Valid() && idx < |app.tabs| && MayRun(app.tabs[idx], sql)
    requires Running(app, idx, sql).Valid()
    requires Shown(DoAll(Running(app, idx, sql), acts), app.tabs[idx].id, app.nextRun).Some?
    ensures var (id, read) := (app.tabs[idx].id, TaskOf(app, idx).connection);
            var started := Running(app, idx, sql);
            var t := TabOf(DoAll(started, acts).tabs, id);
            t.Some? && read.Some? && (ReviewTarget(t.value) == read <==> LastBinding(started, acts, id, read) == read)
  {
    var id := app.tabs[idx].id;
    var started := Running(app, idx, sql);
    var tab := app.tabs[idx].(run := Some(TabRun(app.nextRun, NewRun)));
    assert started.tabs == app.tabs[idx := tab] && id < started.nextTab;
    ReplacedTab(app, idx, tab, id);
    assert TabOf(started.tabs, id) == Some(tab);
    assert TabOf(DoAll(started, acts).tabs, id).Some? && TabOf(DoAll(started, acts).tabs, id).value.run.Some?;
    hide *;
    ConnectionIsLastBinding(started, acts, id);
    TargetIs(app, idx, sql, TabOf(DoAll(started, acts).tabs, id).value);
  }

  lemma TargetIs(app: App, idx: nat, sql: string, t: Tab)
    requires idx < |app.tabs| && MayRun(app.tabs[idx], sql) && t.run.Some?
    ensures TaskOf(app, idx).connection == app.tabs[idx].connection && app.tabs[idx].connection.Some?
    ensures ReviewTarget(t) == t.connection
  {
  }

  /** The tab believes in an open transaction on a session it has lost. */
  predicate Stranded(t: Tab) {
    t.inTransaction && Usable(t).None?
  }

  /** Exactly how a tab gets there: a failed run, another connection, or the
      removal of its connection takes the session away and leaves the mark, or
      a run ends in a transaction with no session known. */
  lemma StrandedIff(app: App, act: Action, id: nat)
    requires app.Valid() && id < app.nextTab && TabOf(app.tabs, id).Some? && !Stranded(TabOf(app.tabs, id).value)
    requires TabOf(Do(app, act).tabs, id).Some?
    ensures var t := TabOf(app.tabs, id).value;
            Stranded(TabOf(Do(app, act).tabs, id).value) <==>
              (act.Receive? && act.msg.tab == id && t.inTransaction && act.msg.QueryFailed?) ||
              (act.Receive? && act.msg.tab == id && t.inTransaction && act.msg.SessionOpened? &&
               t.connection != Some(act.msg.connection)) ||
              (act.Receive? && act.msg.tab == id && act.msg.Query? && ShowsRun(t, act.msg.run) && act.msg.ev.Done? &&
               act.msg.ev.inTransaction == Some(true) && Usable(t).None?) ||
              (act.Connect? && IsAt(app, act.idx, id) && t.inTransaction && act.connection != t.connection) ||
              (act.Listed? && t.inTransaction && t.connection.Some? && t.connection.value !in act.list)
  {
    ActionTouches(app, act, id);
    TabHasId(app.tabs, id);
    hide TabOf;
    hide Do;
  }

  /** When a manual-commit tab runs SQL, the SQL is in a transaction exactly if
      the tab believed in none (so BEGIN is sent first), or its session is
      known and not found gone. */
  lemma ManualRunIsTransactionalIff(w: RunSqlSpec.World, s: RunSqlSpec.Service, app: App, idx: nat, i: nat)
    requires idx < |app.tabs| && !app.tabs[idx].autocommit
    requires var t := app.tabs[idx];
             t.inTransaction && Usable(t).Some? && Usable(t).value in s.live ==> s.live[Usable(t).value]
    requires var task := TaskOf(app, idx);
             var out := RunSqlSpec.RunSql(w, s, task.given, task.begin);
             |s.log| <= i < |out.service.log| && out.service.log[i].UserSql?
    ensures var (t, task) := (app.tabs[idx], TaskOf(app, idx));
            RunSqlSpec.RunSql(w, s, task.given, task.begin).service.log[i].inTransaction <==>
              !t.inTransaction || (Usable(t).Some? && !RunSqlSpec.FoundGone(w, s, Usable(t).value))
  {
    var (t, task) := (app.tabs[idx], TaskOf(app, idx));
    hide RunSqlSpec.RunSql;
    hide RunSqlSpec.FoundGone;
    if !t.inTransaction {
      RunSqlSpec.SqlFollowsBegin(w, s, task.given);
      assert RunSqlSpec.BegunJustBefore(RunSqlSpec.RunSql(w, s, task.given, true).service.log, i);
    } else if Usable(t).Some? {
      RunSqlSpec.OpenTransactionIsKeptIffSessionLives(w, s, task.given.value, i);
    } else {
      RunSqlSpec.NewSessionHasNoTransaction(w, s, i);
    }
  }

  /** A run starts exactly in a tab that has a connection and no run going on,
      for SQL that is not just white space; then the tab shows it and its task
      works for it on the tab's connection. */
  lemma RunStartsIff(app: App, idx: nat, sql: string)
    requires app.Valid() && idx < |app.tabs|
    ensures var (t, after) := (app.tabs[idx], Running(app, idx, sql));
            after != app <==>
              t.connection.Some? && (t.run.Some? ==> !t.run.value.state.running) &&
              exists i :: 0 <= i < |sql| && !IsSpace(sql[i])
    ensures var (task, after) := (TaskOf(app, idx), Running(app, idx, sql));
            after != app ==>
              |after.tabs| == |app.tabs| && ShowsRun(after.tabs[idx], task.run) && task.tab == after.tabs[idx].id &&
              after.tabs[idx].run.value.state.running && task.connection == app.tabs[idx].connection
  {
  }

  /** In an auto-commit tab no transaction is ever begun for a run, and so in
      a new tab. */
  lemma AutocommitBeginsNothing(w: RunSqlSpec.World, s: RunSqlSpec.Service, app: App, idx: nat, i: nat)
    requires idx < |app.tabs| && (app.tabs[idx].autocommit || exists id, c :: app.tabs[idx] == FreshTab(id, c))
    requires var task := TaskOf(app, idx);
             |s.log| <= i < |RunSqlSpec.RunSql(w, s, task.given, task.begin).service.log|
    ensures var task := TaskOf(app, idx); !RunSqlSpec.RunSql(w, s, task.given, task.begin).service.log[i].Begun?
  {
    var task := TaskOf(app, idx);
    assert !task.begin;
    hide RunSqlSpec.RunSql;
    RunSqlSpec.NoBeginUnasked(w, s, task.given, i);
  }

  /** A new tab comes last, in front, on the connection asked for or else on
      that of the tab in front before. */
  lemma NewTabInherits(app: App, connection: Option<nat>)
    requires app.Valid()
    ensures var after := WithNew(app, connection);
            after.tabs[..|app.tabs|] == app.tabs && |after.tabs| == |app.tabs| + 1 && after.active == |app.tabs| &&
            var tab := after.tabs[|app.tabs|];
            tab.connection == (if connection.Some? then connection else app.tabs[app.active].connection) &&
            !tab.pinned && tab.run == None && tab.session == None && !tab.inTransaction && tab.autocommit
  {
  }

  /** Closing the only tab opens a fresh one on the same connection. */
  lemma ClosingLastTab(app: App)
    requires app.Valid() && |app.tabs| == 1
    ensures var after := Closed(app, 0);
            |after.tabs| == 1 && after.active == 0 && after.tabs[0].id != app.tabs[0].id && after.tabs[0].run == None &&
            after.tabs[0].session == None && after.tabs[0].connection == app.tabs[0].connection
  {
  }

  /** A window with one tab. */
  function Alone(t: Tab, nextRun: nat): App {
    App([t], 0, 2, nextRun)
  }

  lemma AloneRuns(t: Tab, nextRun: nat, sql: string)
    requires MayRun(t, sql)
    ensures Do(Alone(t, nextRun), RunSql(0, sql)) == Alone(t.(run := Some(TabRun(nextRun, NewRun))), nextRun + 1)
  {
    hide MayRun;
    hide NewRun;
    var u := t.(run := Some(TabRun(nextRun, NewRun)));
    assert [t][0 := u] == [u];
  }

  lemma AloneHears(t: Tab, nextRun: nat, msg: Msg)
    requires msg.tab == t.id
    ensures Do(Alone(t, nextRun), Receive(msg)) == Alone(Delivered(t, msg), nextRun)
  {
    hide Delivered;
    assert IndexOf([t], t.id) == 0;
    assert [t][0 := Delivered(t, msg)] == [Delivered(t, msg)];
  }

  lemma TransactionOpens(t: Tab, run: nat)
    requires ShowsRun(t, run)
    ensures var u := Delivered(t, Query(t.id, run, Done(false, Some(true))));
            u.inTransaction && u == t.(run := u.run, inTransaction := true) && u.run.Some? && !u.run.value.state.running
  {
    hide Completed;
  }

  lemma TransportFails(t: Tab, run: nat, error: string)
    requires ShowsRun(t, run)
    ensures var u := Delivered(t, QueryFailed(t.id, run, error));
            u == t.(run := u.run, session := None) && u.run.Some? && !u.run.value.state.running
  {
    hide Completed;
  }

  /** It happens: rows are read on one connection, another one is chosen, and
      the edits of those rows go there. */
  lemma EditsCanGoElsewhere(here: nat, there: nat, sql: string)
    requires !Blank(sql) && here != there
    ensures var a0 := Alone(FreshTab(1, Some(here)), 1);
            var a1 := Do(a0, RunSql(0, sql));
            var a2 := Do(a1, Receive(Query(1, 1, Done(false, None))));
            var a3 := Do(a2, Connect(0, Some(there)));
            TaskOf(a0, 0).connection == Some(here) && a3.active < |a3.tabs| && ShowsRun(a3.tabs[0], 1) &&
            a3.tabs[0].run == a2.tabs[0].run && ReviewTarget(a3.tabs[0]) == Some(there)
  {
    hide Blank;
    hide NewRun;
    var t0 := FreshTab(1, Some(here));
    AloneRuns(t0, 1, sql);
    var t1 := t0.(run := Some(TabRun(1, NewRun)));
    AloneHears(t1, 2, Query(1, 1, Done(false, None)));
    hide ApplyEvent;
    var t2 := Delivered(t1, Query(1, 1, Done(false, None)));
    assert [t2][0 := Connected(t2, Some(there))] == [Connected(t2, Some(there))];
  }

  /** It happens: a manual-commit tab opens a transaction, a later run fails
      in transport, and the next run neither begins nor has a session. */
  lemma FailureLosesTransaction(connection: nat, session: nat, sql: string, error: string)
    requires !Blank(sql)
    ensures var t := FreshTab(1, Some(connection)).(autocommit := false);
            var a1 := Do(Alone(t, 1), RunSql(0, sql));
            var a2 := Do(a1, Receive(SessionOpened(1, connection, session)));
            var a3 := Do(a2, Receive(Query(1, 1, Done(false, Some(true)))));
            var a4 := Do(a3, RunSql(0, sql));
            var a5 := Do(a4, Receive(QueryFailed(1, 2, error)));
            a5.active < |a5.tabs| && MayRun(a5.tabs[0], sql) && TaskOf(a5, 0) == Task(1, 3, Some(connection), None, false)
  {
    hide Blank;
    hide Do;
    hide NewRun;
    var t0 := FreshTab(1, Some(connection)).(autocommit := false);
    AloneRuns(t0, 1, sql);
    var t1 := t0.(run := Some(TabRun(1, NewRun)));
    AloneHears(t1, 2, SessionOpened(1, connection, session));
    var t2 := t1.(session := Some((connection, session)));
    AloneHears(t2, 2, Query(1, 1, Done(false, Some(true))));
    TransactionOpens(t2, 1);
    var t3 := Delivered(t2, Query(1, 1, Done(false, Some(true))));
    AloneRuns(t3, 2, sql);
    var t4 := t3.(run := Some(TabRun(2, NewRun)));
    AloneHears(t4, 3, QueryFailed(1, 2, error));
    TransportFails(t4, 2, error);
  }
}

/** The window's own state, as the methods of the application update it. */
module Tabs {
  import opened Prelude
  import opened ResultSpec
  import opened TabSpec

  class Window {
    var tabs: seq<Tab>
    var active: nat
    var nextTab: nat
    var nextRun: nat

    ghost function State(): App
      reads this
    {
      App(tabs, active, nextTab, nextRun)
    }

    /** A new window: one empty tab. */
    constructor ()
      ensures State().Valid() && tabs == [FreshTab(1, None)]
    {
      tabs, active, nextTab, nextRun := [FreshTab(1, None)], 0, 2, 1;
    }

    method NewTab(connection: Option<nat>) returns (idx: nat)
      modifies this
      ensures State() == WithNew(old(State()), connection) && idx == active
    {
      var conn := connection;
      if conn.None? && active < |tabs| { conn := tabs[active].connection; }
      tabs := tabs + [FreshTab(nextTab, conn)];
      nextTab := nextTab + 1;
      active := |tabs| - 1;
      return active;
    }

    method CloseTab(idx: nat)
      requires State().Valid()
      modifies this
      ensures State() == Closed(old(State()), idx) && State().Valid()
    {
      ClosedIsValid(State(), idx);
      if idx >= |tabs| { return; }
      var tab := tabs[idx];
      tabs := tabs[..idx] + tabs[idx + 1..];
      if tabs == [] {
        var _ := NewTab(tab.connection);
      }
      if active >= |tabs| { active := |tabs| - 1; }
    }

    /** `iter().position(..)`. */
    method TabIndex(id: nat) returns (i: nat)
      ensures i == IndexOf(tabs, id)
    {
      i := 0;
      while i < |tabs| && tabs[i].id != id
        invariant i <= |tabs| && forall k :: 0 <= k < i ==> tabs[k].id != id
      {
        i := i + 1;
      }
      var found := IndexOf(tabs, id);
    }

    method CountPinned() returns (n: nat)
      ensures n == PinnedCount(tabs)
    {
      n := 0;
      var i := |tabs|;
      while i > 0
        invariant 0 <= i <= |tabs| && n == PinnedCount(tabs[i..])
      {
        i := i - 1;
        assert tabs[i..][1..] == tabs[i + 1..];
        if tabs[i].pinned { n := n + 1; }
      }
      assert tabs[0..] == tabs;
    }

    /** A newly pinned tab goes last among the pinned, an unpinned one first
        after them. */
    method SetPinned(idx: nat, pinned: bool)
      requires State().Valid()
      modifies this
      ensures State() == Pinned(old(State()), idx, pinned) && State().Valid()
    {
      PinnedIsValid(State(), idx, pinned);
      if idx >= |tabs| || tabs[idx].pinned == pinned { return; }
      var front := tabs[active].id;
      var tab := tabs[idx].(pinned := pinned);
      tabs := tabs[..idx] + tabs[idx + 1..];
      var at := CountPinned();
      tabs := tabs[..at] + [tab] + tabs[at..];
      var found := TabIndex(front);
      active := if found < |tabs| then found else 0;
    }

    /** The front half of `run_sql`: show a new run, and say what to run in the
        background. */
    method RunSql(idx: nat, sql: string) returns (task: Option<Task>)
      requires State().Valid()
      modifies this
      ensures State() == Running(old(State()), idx, sql) && State().Valid()
      ensures task == if idx < |old(tabs)| && MayRun(old(tabs)[idx], sql) then Some(TaskOf(old(State()), idx)) else None
    {
      if idx >= |tabs| || !MayRun(tabs[idx], sql) { return None; }
      var t := tabs[idx];
      ReplaceKeeps(State(), idx, t.(run := Some(TabRun(nextRun, NewRun))), nextRun + 1);
      var begin := !t.autocommit && !t.inTransaction;
      var run := nextRun;
      nextRun := nextRun + 1;
      tabs := tabs[idx := t.(run := Some(TabRun(run, NewRun)))];
      return Some(Task(t.id, run, t.connection, Usable(t), begin));
    }

    /** The list of connections arrived. */
    method Connections(list: seq<nat>)
      requires State().Valid()
      modifies this
      ensures State() == Relisted(old(State()), list) && State().Valid()
    {
      RelistedIsValid(State(), list);
      hide App.Valid;
      ghost var before := tabs;
      var i := 0;
      var none := true;
      while i < |tabs|
        invariant i <= |tabs| == |before| && active == old(active) && nextTab == old(nextTab) && nextRun == old(nextRun)
        invariant forall k :: 0 <= k < i ==> tabs[k] == Unlisted(before[k], list)
        invariant forall k :: i <= k < |tabs| ==> tabs[k] == before[k]
        invariant none <==> forall k :: 0 <= k < i ==> Unlisted(before[k], list).connection.None?
      {
        if tabs[i].connection.Some? && tabs[i].connection.value !in list {
          tabs := tabs[i := tabs[i].(connection := None)];
        }
        if tabs[i].connection.Some? { none := false; }
        i := i + 1;
      }
      assert none <==> NoneBound(before, list);
      if none && list != [] && active < |tabs| {
        tabs := tabs[active := tabs[active].(connection := Some(list[0]))];
      }
    }

    /** Messages for a tab or a run that is gone are dropped. */
    method Handle(msg: Msg)
      requires State().Valid()
      modifies this
      ensures State() == Handled(old(State()), msg) && State().Valid()
    {
      HandledIsValid(State(), msg);
      hide Delivered;
      hide App.Valid;
      var i := TabIndex(msg.tab);
      if i >= |tabs| { return; }
      var t := Deliver(tabs[i], msg);
      tabs := tabs[i := t];
    }

    /** What the message does to its tab, step by step. */
    static method Deliver(tab: Tab, msg: Msg) returns (t: Tab)
      ensures t == Delivered(tab, msg)
    {
      hide ApplyEvent;
      hide Fail;
      t := tab;
      match msg {
        case SessionOpened(_, connection, session) => t := t.(session := Some((connection, session)));
        case Query(_, run, ev) =>
          if !ShowsRun(t, run) { return; }
          var state := ApplyEvent(t.run.value.state, ev);
          t := t.(run := Some(TabRun(run, state)));
          if ev.Done? { t := t.(inTransaction := state.inTransaction == Some(true)); }
        case QueryFailed(_, run, error) =>
          t := t.(session := None);
          if ShowsRun(t, run) { t := t.(run := Some(TabRun(run, Fail(t.run.value.state, error)))); }
      }
    }
  }
}
