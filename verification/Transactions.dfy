/** One tab, its running task, the messages on their way and the service
    together: what the tab's transaction mark is worth (`run_sql`, `handle` and
    the toolbar in crates/sqail-ui/src/app.rs). */
module TransactionSpec {
  import opened Prelude
  import opened ResultSpec
  import opened TabSpec
  import RunSqlSpec

  /** The task of run `run`, and the session it works on once it has one. */
  datatype Work = Work(run: nat, session: Option<nat>)

  /** The window, the task running for tab `tab`, the messages to that tab
      still to be delivered, and the service: live sessions and whether each
      has a transaction open. `own` are the sessions opened for the tab. */
  datatype System = System(tab: nat, app: App, work: Option<Work>, mail: seq<Msg>, live: map<nat, bool>, own: set<nat>)

  predicate Runs(t: Tab) {
    t.run.Some? && t.run.value.state.running
  }

  /** If the tab is marked and its session lives, the transaction is open. */
  predicate MarkHolds(t: Tab, live: map<nat, bool>) {
    t.inTransaction && t.session.Some? && t.session.value.1 in live ==> live[t.session.value.1]
  }

  datatype Step =
    | Window(act: Action)
    | Start(idx: nat, sql: string)
    | Deliver
    | Open(connection: nat, session: nat)
    | Change(open: bool)
    | Send(ev: Event)
    | GoneAgain
    | End(cancelled: bool, reported: Option<bool>)
    | Break(error: string)
    | BreakLate(run: nat, error: string)
    | Elsewhere(live: map<nat, bool>)

  /** A step of the window that neither starts a run in the tab nor brings it
      a message. */
  predicate IsOther(s: System, act: Action) {
    !(act.Receive? && act.msg.tab == s.tab) && !(act.RunSql? && IsAt(s.app, act.idx, s.tab))
  }

  /** What other tabs and the passing of time may do to the sessions: drop
      any, but not touch the transaction of one of this tab's. */
  ghost predicate LeavesAlone(own: set<nat>, before: map<nat, bool>, after: map<nat, bool>) {
    forall session :: session in own && session in after ==> session in before && after[session] == before[session]
  }

  ghost predicate Enabled(s: System, step: Step) {
    match step
    case Window(act) => IsOther(s, act)
    case Start(idx, sql) => IsAt(s.app, idx, s.tab) && MayRun(s.app.tabs[idx], sql)
    case Deliver => s.mail != []
    case Open(_, session) => s.work.Some? && s.work.value.session.None? && session !in s.own && session !in s.live
    case Change(_) => s.work.Some? && s.work.value.session.Some? && s.work.value.session.value in s.live
    case Send(ev) => s.work.Some? && !ev.Done?
    case GoneAgain => s.work.Some?
    case End(_, reported) =>
      s.work.Some? && s.work.value.session.Some? &&
      (reported == Some(true) ==> s.work.value.session.value in s.live && s.live[s.work.value.session.value])
    case Break(_) => s.work.Some?
    case BreakLate(run, _) => run < s.app.nextRun && (s.work.Some? ==> run != s.work.value.run)
    case Elsewhere(live) => LeavesAlone(s.own, s.live, live)
  }

  function Posted(s: System, msg: Msg): System {
    s.(mail := s.mail + [msg])
  }

  /** `Start`: that no other task is at work for the tab is not asked for; the
      invariant shows it (`StartFits`).
      `Change`: BEGIN or the user's SQL opens or ends a transaction.
      `GoneAgain`: the session was gone, and the task retries on a new one.
      `End`: the stream ended with Done, which reports the transaction.
      `BreakLate`: the stream of a finished run broke after its Done. */
  ghost function Next(s: System, step: Step): System
    requires s.app.Valid() && Enabled(s, step)
  {
    match step
    case Window(act) => s.(app := Do(s.app, act))
    case Start(idx, sql) =>
      s.(app := Do(s.app, RunSql(idx, sql)), work := Some(Work(s.app.nextRun, TaskOf(s.app, idx).given)))
    case Deliver => s.(app := Do(s.app, Receive(s.mail[0])), mail := s.mail[1..])
    case Open(connection, session) =>
      Posted(s.(work := Some(s.work.value.(session := Some(session))), live := s.live[session := false],
                own := s.own + {session}), SessionOpened(s.tab, connection, session))
    case Change(open) => s.(live := s.live[s.work.value.session.value := open])
    case Send(ev) => Posted(s, Query(s.tab, s.work.value.run, ev))
    case GoneAgain => s.(work := Some(s.work.value.(session := None)))
    case End(cancelled, reported) =>
      Posted(s.(work := None), Query(s.tab, s.work.value.run, Done(cancelled, reported)))
    case Break(error) => Posted(s.(work := None), QueryFailed(s.tab, s.work.value.run, error))
    case BreakLate(run, error) => Posted(s, QueryFailed(s.tab, run, error))
    case Elsewhere(live) => s.(live := live)
  }

  /** The tab once all its mail is delivered. */
  function Final(t: Tab, mail: seq<Msg>): Tab
    decreases |mail|
  {
    if mail == [] then t else Final(Delivered(t, mail[0]), mail[1..])
  }

  /** Whenever no run is going on, now or on the way through the mail, the
      mark holds, and all that is still to come are late failures. */
  ghost predicate HoldsAtRest(t: Tab, mail: seq<Msg>, live: map<nat, bool>)
    decreases |mail|
  {
    (!Runs(t) ==> MarkHolds(t, live) && AllFailures(mail)) &&
    (mail != [] ==> HoldsAtRest(Delivered(t, mail[0]), mail[1..], live))
  }

  ghost predicate AllFailures(mail: seq<Msg>) {
    forall i :: 0 <= i < |mail| ==> mail[i].QueryFailed?
  }

  ghost predicate MailFits(mail: seq<Msg>, tab: nat, nextRun: nat, own: set<nat>) {
    forall i :: 0 <= i < |mail| ==> MsgFits(mail[i], tab, nextRun, own)
  }

  predicate MsgFits(msg: Msg, tab: nat, nextRun: nat, own: set<nat>) {
    msg.tab == tab && (if msg.SessionOpened? then msg.session in own else msg.run < nextRun)
  }

  predicate Owns(t: Tab, own: set<nat>) {
    t.session.Some? ==> t.session.value.1 in own
  }

  /** While the task works, the tab shows its run, and if the task has a
      session, the tab will have that one or none. */
  predicate WorkFits(t: Tab, work: Work) {
    Runs(t) && t.run.value.id == work.run &&
    (work.session.Some? && t.session.Some? ==> t.session.value.1 == work.session.value)
  }

  ghost predicate TabFits(s: System, t: Tab) {
    Owns(t, s.own) && HoldsAtRest(t, s.mail, s.live) &&
    (if s.work.Some? then WorkFits(Final(t, s.mail), s.work.value) else !Runs(Final(t, s.mail)))
  }

  ghost predicate Good(s: System) {
    s.app.Valid() && s.tab < s.app.nextTab && MailFits(s.mail, s.tab, s.app.nextRun, s.own) &&
    (s.work.Some? ==> s.work.value.run < s.app.nextRun && (s.work.value.session.Some? ==> s.work.value.session.value in s.own)) &&
    (TabOf(s.app.tabs, s.tab).Some? ==> TabFits(s, TabOf(s.app.tabs, s.tab).value))
  }

  /** Delivering never makes a run go on again. */
  lemma DeliveredRuns(t: Tab, msg: Msg)
    requires Runs(Delivered(t, msg))
    ensures Runs(t) && Delivered(t, msg).run.value.id == t.run.value.id
  {
    match msg
    case SessionOpened(_, _, _) =>
    case Query(_, run, ev) => if ShowsRun(t, run) { EventRuns(t.run.value.state, ev); } hide ApplyEvent;
    case QueryFailed(_, run, error) => hide Completed;
  }

  lemma EventRuns(r: RunState, ev: Event)
    ensures ev.Done? ==> !ApplyEvent(r, ev).running && ApplyEvent(r, ev).inTransaction == ev.inTransaction
    ensures !ev.Done? ==> ApplyEvent(r, ev).running == r.running
  {
    hide Completed;
    hide FittedAll;
  }

  lemma {:induction false} FinalRuns(t: Tab, mail: seq<Msg>)
    requires Runs(Final(t, mail))
    ensures Runs(t) && Final(t, mail).run.value.id == t.run.value.id
    decreases |mail|
  {
    if mail != [] {
      hide Delivered;
      hide Runs;
      FinalRuns(Delivered(t, mail[0]), mail[1..]);
      DeliveredRuns(t, mail[0]);
    }
  }

  lemma {:induction false} FinalJoins(t: Tab, mail: seq<Msg>, msg: Msg)
    ensures Final(t, mail + [msg]) == Delivered(Final(t, mail), msg)
    decreases |mail|
  {
    hide Delivered;
    if mail == [] {
      assert [msg][1..] == [];
      assert Final(t, [msg]) == Final(Delivered(t, msg), []);
    } else {
      assert (mail + [msg])[1..] == mail[1..] + [msg];
      FinalJoins(Delivered(t, mail[0]), mail[1..], msg);
    }
  }

  /** As long as the run goes on to the end of the mail, the sessions may
      change and anything may be posted; what counts is where it ends. */
  lemma {:induction false} RestAfterPost(t: Tab, mail: seq<Msg>, msg: Msg, live: map<nat, bool>)
    requires Runs(Final(t, mail))
    requires !Runs(Delivered(Final(t, mail), msg)) ==> MarkHolds(Delivered(Final(t, mail), msg), live)
    ensures HoldsAtRest(t, mail + [msg], live)
    decreases |mail|
  {
    FinalRuns(t, mail);
    hide Delivered;
    hide MarkHolds;
    hide Runs;
    if mail == [] {
      assert [msg][1..] == [];
      assert HoldsAtRest(Delivered(t, msg), [], live);
    } else {
      assert (mail + [msg])[1..] == mail[1..] + [msg];
      RestAfterPost(Delivered(t, mail[0]), mail[1..], msg, live);
    }
  }

  lemma {:induction false} RestWhileRunning(t: Tab, mail: seq<Msg>, live: map<nat, bool>)
    requires Runs(Final(t, mail))
    ensures HoldsAtRest(t, mail, live)
    decreases |mail|
  {
    FinalRuns(t, mail);
    hide Delivered;
    hide MarkHolds;
    hide Runs;
    if mail != [] {
      RestWhileRunning(Delivered(t, mail[0]), mail[1..], live);
    }
  }

  /** A late failure may be posted at any time: it takes the session away. */
  lemma {:induction false} RestAfterFailure(t: Tab, mail: seq<Msg>, msg: Msg, live: map<nat, bool>)
    requires HoldsAtRest(t, mail, live) && msg.QueryFailed?
    ensures HoldsAtRest(t, mail + [msg], live)
    decreases |mail|
  {
    FailureClears(t, msg, live);
    hide Delivered;
    hide MarkHolds;
    hide Runs;
    if mail == [] {
      assert [msg][1..] == [];
      assert HoldsAtRest(Delivered(t, msg), [], live);
    } else {
      assert (mail + [msg])[1..] == mail[1..] + [msg];
      RestAfterFailure(Delivered(t, mail[0]), mail[1..], msg, live);
    }
  }

  lemma FailureClears(t: Tab, msg: Msg, live: map<nat, bool>)
    requires msg.QueryFailed?
    ensures MarkHolds(Delivered(t, msg), live) && Delivered(t, msg).session == None
    ensures !ShowsRun(t, msg.run) ==> Delivered(t, msg).run == t.run
    ensures ShowsRun(t, msg.run) ==> !Runs(Delivered(t, msg))
    ensures !Runs(t) ==> !Runs(Delivered(t, msg))
  {
  }

  /** `u` is `t` with less to answer for. */
  predicate Weaker(u: Tab, t: Tab) {
    u.id == t.id && u.run == t.run && (u.session == t.session || u.session == None) && (u.inTransaction ==> t.inTransaction)
  }

  lemma WeakerDelivered(u: Tab, t: Tab, msg: Msg)
    requires Weaker(u, t)
    ensures Weaker(Delivered(u, msg), Delivered(t, msg))
  {
    hide ApplyEvent;
    hide Fail;
  }

  lemma {:induction false} WeakerRests(u: Tab, t: Tab, mail: seq<Msg>, live: map<nat, bool>)
    requires Weaker(u, t) && HoldsAtRest(t, mail, live)
    ensures HoldsAtRest(u, mail, live) && Weaker(Final(u, mail), Final(t, mail))
    decreases |mail|
  {
    if mail != [] {
      WeakerDelivered(u, t, mail[0]);
      hide Delivered;
      WeakerRests(Delivered(u, mail[0]), Delivered(t, mail[0]), mail[1..], live);
    }
  }

  /** What goes on elsewhere leaves the tab's sessions alone. */
  lemma {:induction false} ElsewhereRests(t: Tab, mail: seq<Msg>, tab: nat, nextRun: nat, own: set<nat>,
                                          before: map<nat, bool>, after: map<nat, bool>)
    requires HoldsAtRest(t, mail, before) && LeavesAlone(own, before, after)
    requires Owns(t, own) && MailFits(mail, tab, nextRun, own)
    ensures HoldsAtRest(t, mail, after)
    decreases |mail|
  {
    if mail != [] {
      assert MsgFits(mail[0], tab, nextRun, own);
      assert Owns(Delivered(t, mail[0]), own);
      assert MailFits(mail[1..], tab, nextRun, own);
      hide Delivered;
      hide MsgFits;
      ElsewhereRests(Delivered(t, mail[0]), mail[1..], tab, nextRun, own, before, after);
    }
  }

  /** A new run in a tab at rest: only late failures of older runs are left
      in the mail. */
  lemma {:induction false} StartedRuns(t: Tab, mail: seq<Msg>, tab: nat, run: nat, own: set<nat>, session: Option<(nat, nat)>)
    requires Runs(t) && t.run.value.id == run && AllFailures(mail) && MailFits(mail, tab, run, own)
    requires t.session == session || t.session == None
    ensures var u := Final(t, mail);
            Runs(u) && u.run.value.id == run && (u.session == session || u.session == None)
    decreases |mail|
  {
    if mail != [] {
      assert MsgFits(mail[0], tab, run, own) && mail[0].QueryFailed?;
      FailureClears(t, mail[0], map[]);
      assert Delivered(t, mail[0]).run == t.run;
      hide Delivered;
      StartedRuns(Delivered(t, mail[0]), mail[1..], tab, run, own, session);
    }
  }

  lemma SentRuns(t: Tab, msg: Msg)
    requires Runs(t) && msg.Query? && !msg.ev.Done?
    ensures Runs(Delivered(t, msg)) && Delivered(t, msg).run.value.id == t.run.value.id && Delivered(t, msg).session == t.session
  {
    EventRuns(t.run.value.state, msg.ev);
    hide ApplyEvent;
  }

  lemma EndStops(t: Tab, run: nat, cancelled: bool, reported: Option<bool>)
    requires ShowsRun(t, run)
    ensures var u := Delivered(t, Query(t.id, run, Done(cancelled, reported)));
            !Runs(u) && u.inTransaction == (reported == Some(true)) && u.session == t.session
  {
    EventRuns(t.run.value.state, Done(cancelled, reported));
    hide ApplyEvent;
  }

  lemma {:induction false} FinalHasId(t: Tab, mail: seq<Msg>)
    ensures Final(t, mail).id == t.id
    decreases |mail|
  {
    if mail != [] {
      FinalHasId(Delivered(t, mail[0]), mail[1..]);
    }
  }

  lemma PostedFits(mail: seq<Msg>, msg: Msg, tab: nat, nextRun: nat, own: set<nat>, more: nat, wider: set<nat>)
    requires MailFits(mail, tab, nextRun, own) && nextRun <= more && own <= wider && MsgFits(msg, tab, more, wider)
    ensures MailFits(mail + [msg], tab, more, wider)
  {
    forall i | 0 <= i < |mail + [msg]| ensures MsgFits((mail + [msg])[i], tab, more, wider) {
      if i < |mail| {
        assert MsgFits(mail[i], tab, nextRun, own);
      }
    }
  }

  lemma OpenFits(s: System, t: Tab, connection: nat, session: nat)
    requires Enabled(s, Open(connection, session)) && TabFits(s, t)
    ensures s.app.Valid() ==> TabFits(Next(s, Open(connection, session)), t)
  {
    var msg := SessionOpened(s.tab, connection, session);
    var live := s.live[session := false];
    FinalRuns(t, s.mail);
    FinalJoins(t, s.mail, msg);
    RestAfterPost(t, s.mail, msg, live);
  }

  lemma ChangeFits(s: System, t: Tab, open: bool)
    requires Enabled(s, Change(open)) && TabFits(s, t)
    ensures s.app.Valid() ==> TabFits(Next(s, Change(open)), t)
  {
    RestWhileRunning(t, s.mail, s.live[s.work.value.session.value := open]);
  }

  lemma SendFits(s: System, t: Tab, ev: Event)
    requires Enabled(s, Send(ev)) && TabFits(s, t)
    ensures s.app.Valid() ==> TabFits(Next(s, Send(ev)), t)
  {
    var msg := Query(s.tab, s.work.value.run, ev);
    hide ApplyEvent;
    FinalJoins(t, s.mail, msg);
    SentRuns(Final(t, s.mail), msg);
    hide Delivered;
    RestAfterPost(t, s.mail, msg, s.live);
  }

  lemma EndFits(s: System, t: Tab, cancelled: bool, reported: Option<bool>)
    requires Enabled(s, End(cancelled, reported)) && TabFits(s, t) && t.id == s.tab
    ensures s.app.Valid() ==> TabFits(Next(s, End(cancelled, reported)), t)
  {
    var msg := Query(s.tab, s.work.value.run, Done(cancelled, reported));
    FinalHasId(t, s.mail);
    FinalJoins(t, s.mail, msg);
    EndStops(Final(t, s.mail), s.work.value.run, cancelled, reported);
    hide Delivered;
    RestAfterPost(t, s.mail, msg, s.live);
  }

  lemma BreakFits(s: System, t: Tab, error: string)
    requires Enabled(s, Break(error)) && TabFits(s, t)
    ensures s.app.Valid() ==> TabFits(Next(s, Break(error)), t)
  {
    var msg := QueryFailed(s.tab, s.work.value.run, error);
    FinalJoins(t, s.mail, msg);
    FailureClears(Final(t, s.mail), msg, s.live);
    hide Delivered;
    RestAfterPost(t, s.mail, msg, s.live);
  }

  lemma BreakLateFits(s: System, t: Tab, run: nat, error: string)
    requires Enabled(s, BreakLate(run, error)) && TabFits(s, t)
    ensures s.app.Valid() ==> TabFits(Next(s, BreakLate(run, error)), t)
  {
    var msg := QueryFailed(s.tab, run, error);
    FinalJoins(t, s.mail, msg);
    FailureClears(Final(t, s.mail), msg, s.live);
    hide Delivered;
    RestAfterFailure(t, s.mail, msg, s.live);
  }

  lemma ElsewhereFits(s: System, t: Tab, live: map<nat, bool>)
    requires Enabled(s, Elsewhere(live)) && TabFits(s, t) && MailFits(s.mail, s.tab, s.app.nextRun, s.own)
    ensures s.app.Valid() ==> TabFits(Next(s, Elsewhere(live)), t)
  {
    hide LeavesAlone;
    hide Runs;
    hide WorkFits;
    ElsewhereRests(t, s.mail, s.tab, s.app.nextRun, s.own, s.live, live);
  }

  lemma GoneFits(s: System, t: Tab)
    requires Enabled(s, GoneAgain) && TabFits(s, t)
    ensures s.app.Valid() ==> TabFits(Next(s, GoneAgain), t)
  {
    hide HoldsAtRest;
    hide Runs;
  }

  lemma MailStillFits(mail: seq<Msg>, tab: nat, nextRun: nat, own: set<nat>, more: nat)
    requires MailFits(mail, tab, nextRun, own) && nextRun <= more
    ensures MailFits(mail, tab, more, own)
  {
    forall i | 0 <= i < |mail| ensures MsgFits(mail[i], tab, more, own) {
      assert MsgFits(mail[i], tab, nextRun, own);
    }
  }

  lemma WeakerTouched(s: System, act: Action, t: Tab)
    requires t.id == s.tab && IsOther(s, act)
    ensures Weaker(Touched(s.app, act, t), t)
  {
    hide Delivered;
    hide MayRun;
    hide NoneBound;
  }

  lemma WeakerFits(s: System, t: Tab, u: Tab, act: Action)
    requires s.app.Valid() && IsOther(s, act) && TabFits(s, t) && Weaker(u, t)
    ensures TabFits(Next(s, Window(act)), u)
  {
    WeakerRests(u, t, s.mail, s.live);
    hide Do;
    hide HoldsAtRest;
  }

  lemma WindowKeeps(s: System, act: Action)
    requires Good(s) && Enabled(s, Window(act))
    ensures Good(Next(s, Window(act)))
  {
    DoIsValid(s.app, act);
    IdsGrow(s.app, act);
    MailStillFits(s.mail, s.tab, s.app.nextRun, s.own, Do(s.app, act).nextRun);
    ActionTouches(s.app, act, s.tab);
    TabHasId(s.app.tabs, s.tab);
    hide TabOf;
    hide Do;
    hide Touched;
    hide TabFits;
    hide MailFits;
    hide App.Valid;
    if TabOf(Do(s.app, act).tabs, s.tab).Some? {
      var t := TabOf(s.app.tabs, s.tab).value;
      WeakerTouched(s, act, t);
      WeakerFits(s, t, Touched(s.app, act, t), act);
    }
  }

  lemma StartFits(s: System, t: Tab, idx: nat, sql: string)
    requires s.app.Valid() && Enabled(s, Start(idx, sql)) && TabFits(s, t) && t == s.app.tabs[idx]
    requires MailFits(s.mail, s.tab, s.app.nextRun, s.own)
    ensures TabFits(Next(s, Start(idx, sql)), t.(run := Some(TabRun(s.app.nextRun, NewRun))))
    ensures var given := TaskOf(s.app, idx).given; given.Some? ==> given.value in s.own
    ensures s.work == None
  {
    assert s.work == None by {
      if s.work.Some? { FinalRuns(t, s.mail); }
    }
    var u := t.(run := Some(TabRun(s.app.nextRun, NewRun)));
    assert !Runs(t) && Runs(u);
    StartedRuns(u, s.mail, s.tab, s.app.nextRun, s.own, t.session);
    RestWhileRunning(u, s.mail, s.live);
    hide Do;
    hide HoldsAtRest;
    hide MailFits;
  }

  lemma StartKeeps(s: System, idx: nat, sql: string)
    requires Good(s) && Enabled(s, Start(idx, sql))
    ensures Good(Next(s, Start(idx, sql)))
  {
    var act := RunSql(idx, sql);
    DoIsValid(s.app, act);
    IdsGrow(s.app, act);
    MailStillFits(s.mail, s.tab, s.app.nextRun, s.own, Do(s.app, act).nextRun);
    ActionTouches(s.app, act, s.tab);
    TabIs(s.app.tabs, idx);
    assert Do(s.app, act).nextRun == s.app.nextRun + 1;
    hide TabOf;
    hide Do;
    hide TabFits;
    hide MailFits;
    hide App.Valid;
    StartFits(s, s.app.tabs[idx], idx, sql);
  }

  lemma DeliverFits(s: System, t: Tab)
    requires s.app.Valid() && s.mail != [] && TabFits(s, t) && MsgFits(s.mail[0], s.tab, s.app.nextRun, s.own)
    ensures TabFits(Next(s, Deliver), Delivered(t, s.mail[0]))
  {
    hide Do;
    hide ApplyEvent;
    hide Fail;
    hide Runs;
    hide WorkFits;
    hide MarkHolds;
  }

  lemma DeliverKeeps(s: System)
    requires Good(s) && Enabled(s, Deliver)
    ensures Good(Next(s, Deliver))
  {
    var act := Receive(s.mail[0]);
    assert MsgFits(s.mail[0], s.tab, s.app.nextRun, s.own);
    DoIsValid(s.app, act);
    IdsGrow(s.app, act);
    MailStillFits(s.mail, s.tab, s.app.nextRun, s.own, Do(s.app, act).nextRun);
    assert MailFits(s.mail[1..], s.tab, Do(s.app, act).nextRun, s.own);
    ActionTouches(s.app, act, s.tab);
    TabHasId(s.app.tabs, s.tab);
    hide TabOf;
    hide Do;
    hide TabFits;
    hide MailFits;
    hide App.Valid;
    hide Delivered;
    if TabOf(s.app.tabs, s.tab).Some? {
      DeliverFits(s, TabOf(s.app.tabs, s.tab).value);
    }
  }

  /** Steps that leave the window as it is. */
  predicate IsSilent(step: Step) {
    !step.Window? && !step.Start? && !step.Deliver?
  }

  lemma SilentFits(s: System, step: Step, t: Tab)
    requires Good(s) && Enabled(s, step) && IsSilent(step) && TabOf(s.app.tabs, s.tab) == Some(t)
    ensures TabFits(Next(s, step), t)
  {
    TabHasId(s.app.tabs, s.tab);
    assert s.app.Valid() && TabFits(s, t) && MailFits(s.mail, s.tab, s.app.nextRun, s.own) && t.id == s.tab;
    assert !step.Window? && !step.Start? && !step.Deliver?;
    hide *;
    match step
    case Open(connection, session) => OpenFits(s, t, connection, session);
    case Change(open) => ChangeFits(s, t, open);
    case Send(ev) => SendFits(s, t, ev);
    case GoneAgain => GoneFits(s, t);
    case End(cancelled, reported) => EndFits(s, t, cancelled, reported);
    case Break(error) => BreakFits(s, t, error);
    case BreakLate(run, error) => BreakLateFits(s, t, run, error);
    case Elsewhere(live) => ElsewhereFits(s, t, live);
  }

  lemma SilentMail(s: System, step: Step)
    requires Good(s) && Enabled(s, step) && IsSilent(step)
    ensures var n := Next(s, step);
            n.app == s.app && n.tab == s.tab && MailFits(n.mail, n.tab, n.app.nextRun, n.own) &&
            (n.work.Some? ==> n.work.value.run < n.app.nextRun && (n.work.value.session.Some? ==> n.work.value.session.value in n.own))
  {
    hide App.Valid;
    hide TabFits;
    hide TabOf;
    hide MailFits;
    hide LeavesAlone;
    var n := Next(s, step);
    if n.mail != s.mail {
      PostedFits(s.mail, n.mail[|s.mail|], s.tab, s.app.nextRun, s.own, s.app.nextRun, n.own);
    }
  }

  /** Every step of the window, the task, the mail and the service keeps the
      invariant. */
  lemma StepKeeps(s: System, step: Step)
    requires Good(s) && Enabled(s, step)
    ensures Good(Next(s, step))
  {
    if step.Window? {
      WindowKeeps(s, step.act);
    } else if step.Start? {
      StartKeeps(s, step.idx, step.sql);
    } else if step.Deliver? {
      DeliverKeeps(s);
    } else {
      SilentMail(s, step);
      if TabOf(s.app.tabs, s.tab).Some? {
        SilentFits(s, step, TabOf(s.app.tabs, s.tab).value);
      }
      hide Next;
      hide TabFits;
      hide MailFits;
      hide App.Valid;
    }
  }

  /** `steps` lead from `s` to `u`. */
  ghost predicate Leads(s: System, steps: seq<Step>, u: System)
    decreases |steps|
  {
    if steps == [] then u == s
    else s.app.Valid() && Enabled(s, steps[0]) && Leads(Next(s, steps[0]), steps[1..], u)
  }

  lemma {:induction false} GoodThroughout(s: System, steps: seq<Step>, u: System)
    requires Good(s) && Leads(s, steps, u)
    ensures Good(u)
    decreases |steps|
  {
    if steps != [] {
      StepKeeps(s, steps[0]);
      hide Good;
      hide Next;
      hide Enabled;
      GoodThroughout(Next(s, steps[0]), steps[1..], u);
    }
  }

  /** A tab that has just been opened. */
  ghost predicate IsFresh(s: System) {
    s.app.Valid() && s.tab < s.app.nextTab && s.work == None && s.mail == [] && s.own == {} &&
    exists connection, auto :: TabOf(s.app.tabs, s.tab) == Some(FreshTab(s.tab, connection).(autocommit := auto))
  }

  lemma FreshIsGood(s: System)
    requires IsFresh(s)
    ensures Good(s)
  {
    hide App.Valid;
  }

  /** The mark is true: whatever has happened to a tab since it was opened,
      and whatever is still on its way to it, when no run is going on in it,
      it is marked and its session lives, the transaction is open there. */
  lemma MarkIsTrue(s: System, steps: seq<Step>, u: System, t: Tab)
    requires IsFresh(s) && Leads(s, steps, u) && TabOf(u.app.tabs, u.tab) == Some(t) && !Runs(t)
    ensures MarkHolds(t, u.live)
  {
    FreshIsGood(s);
    hide Leads;
    GoodThroughout(s, steps, u);
  }

  /** Over all runs of window, task, mail and service: when a manual-commit
      tab runs SQL, the SQL is in a transaction exactly if the tab is not
      marked, or its session is known and not found gone. */
  lemma RunIsTransactionalIff(s: System, steps: seq<Step>, u: System, w: RunSqlSpec.World, service: RunSqlSpec.Service,
                              idx: nat, sql: string, i: nat)
    requires IsFresh(s) && Leads(s, steps, u) && service.live == u.live
    requires IsAt(u.app, idx, u.tab) && MayRun(u.app.tabs[idx], sql) && !u.app.tabs[idx].autocommit
    requires var task := TaskOf(u.app, idx);
             var out := RunSqlSpec.RunSql(w, service, task.given, task.begin);
             |service.log| <= i < |out.service.log| && out.service.log[i].UserSql?
    ensures var (t, task) := (u.app.tabs[idx], TaskOf(u.app, idx));
            RunSqlSpec.RunSql(w, service, task.given, task.begin).service.log[i].inTransaction <==>
              !t.inTransaction || (Usable(t).Some? && !RunSqlSpec.FoundGone(w, service, Usable(t).value))
  {
    var t := u.app.tabs[idx];
    hide RunSqlSpec.RunSql;
    hide RunSqlSpec.FoundGone;
    FreshIsGood(s);
    hide Leads;
    GoodThroughout(s, steps, u);
    TabIs(u.app.tabs, idx);
    hide TabOf;
    MarkIsTrue(s, steps, u, t);
    ManualRunIsTransactionalIff(w, service, u.app, idx, i);
  }

  /** While a run is going on the mark may be wrong: it is the next run of a
      tab that lost its session, on a new session without a transaction. */
  lemma MarkIsWrongWhileRunning(connection: nat, session: nat)
    ensures var t := FreshTab(1, Some(connection)).(autocommit := false, inTransaction := true, run := Some(TabRun(2, NewRun)));
            var u := Delivered(t, SessionOpened(1, connection, session));
            Runs(u) && u.session == Some((connection, session)) && !MarkHolds(u, map[session := false])
  {
  }

  lemma {:induction false} LeadsOn(s: System, a: seq<Step>, u: System, b: seq<Step>, v: System)
    requires Leads(s, a, u) && Leads(u, b, v)
    ensures Leads(s, a + b, v)
    decreases |a|
  {
    hide Enabled;
    hide Next;
    if a == [] {
      assert a + b == b;
    } else {
      assert (a + b)[1..] == a[1..] + b;
      LeadsOn(Next(s, a[0]), a[1..], u, b, v);
    }
  }

  lemma LeadsOne(s: System, step: Step)
    requires s.app.Valid() && Enabled(s, step)
    ensures Leads(s, [step], Next(s, step))
  {
    hide Enabled;
    hide Next;
    assert [step][1..] == [];
  }

  /** The machine's service is the one the task of `RunSqlSpec` talks to, and
      the task works on `session`. */
  ghost predicate Mirrors(s: System, service: RunSqlSpec.Service, session: Option<nat>) {
    s.app.Valid() && s.work.Some? && s.work.value.session == session && s.live == service.live &&
    (session.Some? ==> session.value in s.own) &&
    forall id :: id in s.live || id in s.own ==> id < service.next
  }

  /** Only the task and the service have moved. */
  predicate SameWindow(s: System, u: System) {
    u.app == s.app && u.tab == s.tab && u.work.Some? && s.work.Some? && u.work.value.run == s.work.value.run
  }

  /** Time passes: sessions are dropped. */
  lemma PassedIsStep(w: RunSqlSpec.World, service: RunSqlSpec.Service, s: System, session: Option<nat>) returns (u: System)
    requires Mirrors(s, service, session)
    ensures Leads(s, [Elsewhere(RunSqlSpec.Passed(w, service).live)], u) && SameWindow(s, u)
    ensures Mirrors(u, RunSqlSpec.Passed(w, service), session)
  {
    var step := Elsewhere(RunSqlSpec.Passed(w, service).live);
    LeadsOne(s, step);
    hide Leads;
    hide App.Valid;
    u := Next(s, step);
  }

  lemma SendSqlIsSteps(w: RunSqlSpec.World, service: RunSqlSpec.Service, s: System, session: nat, attempt: nat)
    returns (steps: seq<Step>, u: System)
    requires Mirrors(s, service, Some(session))
    ensures var a := RunSqlSpec.SendSql(w, service, session, attempt);
            Leads(s, steps, u) && SameWindow(s, u) &&
            Mirrors(u, RunSqlSpec.StateAfter(a), if a.Retry? then None else Some(session))
  {
    var v := PassedIsStep(w, service, s, Some(session));
    steps, u := [Elsewhere(RunSqlSpec.Passed(w, service).live)], v;
    if RunSqlSpec.SendSql(w, service, session, attempt).Retry? {
      LeadsOne(v, GoneAgain);
      LeadsOn(s, steps, v, [GoneAgain], Next(v, GoneAgain));
      hide Leads;
      hide App.Valid;
      steps, u := steps + [GoneAgain], Next(v, GoneAgain);
    }
  }

  lemma SendBeginIsSteps(w: RunSqlSpec.World, service: RunSqlSpec.Service, s: System, session: nat, attempt: nat)
    returns (steps: seq<Step>, u: System)
    requires Mirrors(s, service, Some(session))
    ensures var a := RunSqlSpec.SendBegin(w, service, session, attempt);
            Leads(s, steps, u) && SameWindow(s, u) &&
            Mirrors(u, RunSqlSpec.StateAfter(a), if a.Retry? then None else Some(session))
  {
    var passed := RunSqlSpec.Passed(w, service);
    var r := RunSqlSpec.ReplyOf(w, passed, session);
    var begun := RunSqlSpec.BeginEffect(passed, session, r);
    steps := [Elsewhere(passed.live)];
    u := PassedIsStep(w, service, s, Some(session));
    if RunSqlSpec.Begins(r) {
      LeadsOne(u, Change(true));
      LeadsOn(s, steps, u, [Change(true)], Next(u, Change(true)));
      steps, u := steps + [Change(true)], Next(u, Change(true));
    }
    assert Mirrors(u, begun, Some(session));
    hide Leads;
    hide App.Valid;
    if r.Runs? && !r.broken && RunSqlSpec.Failure !in r.events {
      var more, v := SendSqlIsSteps(w, begun, u, session, attempt);
      LeadsOn(s, steps, u, more, v);
      steps, u := steps + more, v;
    } else if r.Fails? && RunSqlSpec.Retries(attempt, r.error) {
      LeadsOne(u, GoneAgain);
      LeadsOn(s, steps, u, [GoneAgain], Next(u, GoneAgain));
      steps, u := steps + [GoneAgain], Next(u, GoneAgain);
    }
  }

  lemma OpenIsStep(service: RunSqlSpec.Service, s: System, connection: nat) returns (u: System)
    requires Mirrors(s, service, None)
    ensures Leads(s, [Open(connection, service.next)], u) && SameWindow(s, u)
    ensures Mirrors(u, RunSqlSpec.OpenEffect(service), Some(service.next))
  {
    LeadsOne(s, Open(connection, service.next));
    hide Leads;
    hide App.Valid;
    u := Next(s, Open(connection, service.next));
  }

  lemma TryIsSteps(w: RunSqlSpec.World, service: RunSqlSpec.Service, s: System, connection: nat,
                   session: Option<nat>, begin: bool, attempt: nat) returns (steps: seq<Step>, u: System)
    requires Mirrors(s, service, session)
    ensures var a := RunSqlSpec.Try(w, service, session, begin, attempt);
            Leads(s, steps, u) && SameWindow(s, u) &&
            Mirrors(u, RunSqlSpec.StateAfter(a), u.work.value.session) && (a.Retry? ==> u.work.value.session == None)
  {
    hide Leads;
    hide RunSqlSpec.SendSql;
    hide RunSqlSpec.SendBegin;
    hide App.Valid;
    if session.Some? {
      if begin {
        steps, u := SendBeginIsSteps(w, service, s, session.value, attempt);
      } else {
        steps, u := SendSqlIsSteps(w, service, s, session.value, attempt);
      }
    } else {
      var passed := RunSqlSpec.Passed(w, service);
      steps := [Elsewhere(passed.live)];
      u := PassedIsStep(w, service, s, None);
      if w.opens(service.clock) {
        var v := OpenIsStep(passed, u, connection);
        LeadsOn(s, steps, u, [Open(connection, passed.next)], v);
        steps := steps + [Open(connection, passed.next)];
        var more, x;
        if begin {
          more, x := SendBeginIsSteps(w, RunSqlSpec.OpenEffect(passed), v, passed.next, attempt);
        } else {
          more, x := SendSqlIsSteps(w, RunSqlSpec.OpenEffect(passed), v, passed.next, attempt);
        }
        LeadsOn(s, steps, v, more, x);
        steps, u := steps + more, x;
      }
    }
  }

  /** Whatever the world does, all that a run does to the service is done by
      steps of this machine. */
  lemma RunIsSteps(w: RunSqlSpec.World, service: RunSqlSpec.Service, s: System, connection: nat,
                   session: Option<nat>, begin: bool) returns (steps: seq<Step>, u: System)
    requires Mirrors(s, service, session)
    ensures Leads(s, steps, u) && SameWindow(s, u)
    ensures u.live == RunSqlSpec.RunSql(w, service, session, begin).service.live
  {
    hide Leads;
    hide RunSqlSpec.Try;
    hide App.Valid;
    steps, u := TryIsSteps(w, service, s, connection, session, begin, 0);
    var a := RunSqlSpec.Try(w, service, session, begin, 0);
    if a.Retry? {
      var more, v := TryIsSteps(w, a.service, u, connection, None, begin, 1);
      LeadsOn(s, steps, u, more, v);
      steps, u := steps + more, v;
    }
  }
}
