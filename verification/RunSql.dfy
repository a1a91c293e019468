/** Running a tab's SQL: open a session if there is none, BEGIN in a
    manual-commit tab, send the user's SQL, and retry once if the session is
    gone (`run_sql` in crates/sqail-ui/src/app.rs). */
module RunSqlSpec {
  import opened Prelude

  /** An error of the client library: an HTTP problem, whether its detail
      speaks of a lost connection, or anything else (transport, decoding). */
  datatype ClientError = Api(status: nat, lost: bool) | Other

  datatype Event = Failure | Plain(n: nat)

  /** What the service does with a request on a live session. `RunsUnseen`:
      it ran, but the reply was lost on the way. */
  datatype Reply =
    | Fails(error: ClientError)
    | Runs(events: seq<Event>, broken: bool)
    | RunsUnseen

  /** What the service ran, in order. */
  datatype Entry = Opened(session: nat) | Begun(session: nat) | UserSql(session: nat, inTransaction: bool)

  /** The service: live sessions and whether each has a transaction open. */
  datatype Service = Service(live: map<nat, bool>, next: nat, log: seq<Entry>, clock: nat)

  /** The world decides, per request: which sessions are dropped just before
      it, whether a session can be opened, what a live session replies, and
      which of the two session-gone replies a dead one gives. */
  datatype World = World(drops: nat -> set<nat>, opens: nat -> bool, replies: nat -> Reply, notFound: nat -> bool)

  /** `is_session_gone`. */
  predicate IsSessionGone(e: ClientError) {
    match e
    case Api(status, lost) => status == 404 || lost
    case Other => false
  }

  /** The guard of both retry arms. */
  predicate Retries(attempt: nat, e: ClientError) {
    attempt == 0 && e.Api? && (e.status == 404 || e.status == 409) && IsSessionGone(e)
  }

  /** Time passes up to the next request; sessions may be dropped. */
  function Passed(w: World, s: Service): Service {
    s.(live := s.live - w.drops(s.clock), clock := s.clock + 1)
  }

  /** A dead session answers 404, or 409 saying the connection was lost. */
  function ReplyOf(w: World, s: Service, session: nat): Reply
    requires s.clock > 0
  {
    if session in s.live then w.replies(s.clock - 1)
    else if w.notFound(s.clock - 1) then Fails(Api(404, false))
    else Fails(Api(409, true))
  }

  predicate Ran(r: Reply) {
    !r.Fails?
  }

  /** BEGIN took effect: it ran and reported no error. */
  predicate Begins(r: Reply) {
    r.RunsUnseen? || (r.Runs? && Failure !in r.events)
  }

  function OpenEffect(s: Service): Service {
    s.(live := s.live[s.next := false], next := s.next + 1, log := s.log + [Opened(s.next)])
  }

  function BeginEffect(s: Service, session: nat, r: Reply): Service {
    if Begins(r) then s.(live := s.live[session := true], log := s.log + [Begun(session)]) else s
  }

  function SqlEffect(s: Service, session: nat, r: Reply): Service {
    if Ran(r) && session in s.live then s.(log := s.log + [UserSql(session, s.live[session])]) else s
  }

  /** How a run ends for the tab: failed, or the whole stream forwarded. */
  datatype Ending = Failed | Streamed
  datatype Outcome = Outcome(service: Service, ending: Ending, forwarded: seq<Event>, attempts: nat)

  /** Either the attempt is over, or the session was gone and it retries. */
  datatype Attempt = Over(outcome: Outcome) | Retry(service: Service)

  function SendSql(w: World, s: Service, session: nat, attempt: nat): Attempt {
    var t := Passed(w, s);
    var r := ReplyOf(w, t, session);
    var u := SqlEffect(t, session, r);
    match r
    case Runs(events, broken) => Over(Outcome(u, if broken then Failed else Streamed, events, attempt + 1))
    case RunsUnseen => Over(Outcome(u, Failed, [], attempt + 1))
    case Fails(e) => if Retries(attempt, e) then Retry(u) else Over(Outcome(u, Failed, [], attempt + 1))
  }

  function SendBegin(w: World, s: Service, session: nat, attempt: nat): Attempt {
    var t := Passed(w, s);
    var r := ReplyOf(w, t, session);
    var u := BeginEffect(t, session, r);
    match r
    case Runs(events, broken) =>
      if broken || Failure in events then Over(Outcome(u, Failed, [], attempt + 1))
      else SendSql(w, u, session, attempt)
    case RunsUnseen => Over(Outcome(u, Failed, [], attempt + 1))
    case Fails(e) => if Retries(attempt, e) then Retry(u) else Over(Outcome(u, Failed, [], attempt + 1))
  }

  function OnSession(w: World, s: Service, session: nat, begin: bool, attempt: nat): Attempt {
    if begin then SendBegin(w, s, session, attempt) else SendSql(w, s, session, attempt)
  }

  /** One attempt, on the given session or a newly opened one. */
  function Try(w: World, s: Service, session: Option<nat>, begin: bool, attempt: nat): Attempt {
    if session.Some? then OnSession(w, s, session.value, begin, attempt)
    else
      var t := Passed(w, s);
      if !w.opens(s.clock) then Over(Outcome(t, Failed, [], attempt + 1))
      else OnSession(w, OpenEffect(t), t.next, begin, attempt)
  }

  /** The whole run: one attempt and perhaps one retry on a new session. */
  function RunSql(w: World, s: Service, session: Option<nat>, begin: bool): Outcome {
    match Try(w, s, session, begin, 0)
    case Over(o) => o
    case Retry(t) =>
      match Try(w, t, None, begin, 1)
      case Over(o) => o
      case Retry(u) => Outcome(u, Failed, [], 2)
  }

  /** The state an attempt leaves behind. */
  function StateAfter(a: Attempt): Service {
    match a case Over(o) => o.service case Retry(s) => s
  }

  /** What one attempt can add to the service's log: a new session, a BEGIN,
      the user's SQL, in this order; the SQL never without its BEGIN when one
      is wanted, and not at all when the attempt is to be retried. */
  datatype Added = Added(newSession: bool, begun: bool, ran: bool, inTransaction: bool)

  function Entries(d: Added, on: nat): seq<Entry> {
    (if d.newSession then [Opened(on)] else []) + (if d.begun then [Begun(on)] else []) +
    (if d.ran then [UserSql(on, d.inTransaction)] else [])
  }

  lemma SendSqlAdds(w: World, s: Service, session: nat, attempt: nat) returns (d: Added)
    ensures var a := SendSql(w, s, session, attempt);
            StateAfter(a).log == s.log + Entries(d, session) && StateAfter(a).next == s.next &&
            !d.newSession && !d.begun && (a.Retry? ==> !d.ran && attempt == 0) &&
            (a.Over? ==> a.outcome.attempts == attempt + 1) &&
            (d.ran ==> session in s.live && d.inTransaction == s.live[session])
  {
    var t := Passed(w, s);
    var r := ReplyOf(w, t, session);
    var ran := Ran(r) && session in t.live;
    d := Added(false, false, ran, if ran then t.live[session] else false);
    assert s.log + [] == s.log;
  }

  lemma SendBeginAdds(w: World, s: Service, session: nat, attempt: nat) returns (d: Added)
    ensures var a := SendBegin(w, s, session, attempt);
            StateAfter(a).log == s.log + Entries(d, session) && StateAfter(a).next == s.next &&
            !d.newSession && (a.Retry? ==> !d.ran && attempt == 0) &&
            (a.Over? ==> a.outcome.attempts == attempt + 1) &&
            (d.ran ==> d.begun && d.inTransaction)
  {
    var t := Passed(w, s);
    var r := ReplyOf(w, t, session);
    var u := BeginEffect(t, session, r);
    assert s.log + [] == s.log;
    if r.Runs? && !r.broken && Failure !in r.events {
      assert Begins(r) && u.live[session];
      var e := SendSqlAdds(w, u, session, attempt);
      d := e.(begun := true);
      assert s.log + [Begun(session)] + Entries(e, session) == s.log + Entries(d, session);
    } else {
      d := Added(false, Begins(r), false, false);
    }
  }

  /** The session an attempt works on. */
  function Target(s: Service, session: Option<nat>): nat {
    if session.Some? then session.value else s.next
  }

  /** The run continues on a session that has a transaction open. */
  predicate WasInTransaction(s: Service, session: Option<nat>) {
    session.Some? && session.value in s.live && s.live[session.value]
  }

  lemma TryAdds(w: World, s: Service, session: Option<nat>, begin: bool, attempt: nat) returns (d: Added)
    ensures var a := Try(w, s, session, begin, attempt);
            StateAfter(a).log == s.log + Entries(d, Target(s, session)) && StateAfter(a).next >= s.next &&
            (a.Retry? ==> !d.ran && attempt == 0) && (a.Over? ==> a.outcome.attempts == attempt + 1) &&
            (d.ran && begin ==> d.begun && d.inTransaction) && (!begin ==> !d.begun) &&
            (d.ran && !begin ==> d.inTransaction == WasInTransaction(s, session))
  {
    hide SendSql;
    hide SendBegin;
    if session.Some? {
      d := OnSessionAdds(w, s, session.value, begin, attempt);
    } else if !w.opens(s.clock) {
      d := Added(false, false, false, false);
      assert s.log + [] == s.log;
    } else {
      var t := OpenEffect(Passed(w, s));
      d := OnSessionAdds(w, t, s.next, begin, attempt);
      assert s.log + [Opened(s.next)] + Entries(d, s.next) == s.log + Entries(d.(newSession := true), s.next);
      d := d.(newSession := true);
    }
  }

  lemma OnSessionAdds(w: World, s: Service, session: nat, begin: bool, attempt: nat) returns (d: Added)
    ensures var a := OnSession(w, s, session, begin, attempt);
            StateAfter(a).log == s.log + Entries(d, session) && StateAfter(a).next == s.next && !d.newSession &&
            (a.Retry? ==> !d.ran && attempt == 0) && (a.Over? ==> a.outcome.attempts == attempt + 1) &&
            (d.ran && begin ==> d.begun && d.inTransaction) && (!begin ==> !d.begun) &&
            (d.ran && !begin ==> session in s.live && d.inTransaction == s.live[session])
  {
    hide SendSql;
    hide SendBegin;
    if begin {
      d := SendBeginAdds(w, s, session, attempt);
    } else {
      d := SendSqlAdds(w, s, session, attempt);
    }
  }

  /** How many times the user's SQL was run. */
  function SqlCount(log: seq<Entry>): nat {
    if log == [] then 0 else SqlCount(log[..|log| - 1]) + if log[|log| - 1].UserSql? then 1 else 0
  }

  lemma {:induction false} SqlCountJoins(a: seq<Entry>, b: seq<Entry>)
    ensures SqlCount(a + b) == SqlCount(a) + SqlCount(b)
  {
    if b == [] {
      assert a + b == a;
    } else {
      assert (a + b)[..|a + b| - 1] == a + b[..|b| - 1];
      SqlCountJoins(a, b[..|b| - 1]);
    }
  }

  lemma EntriesCount(d: Added, on: nat)
    ensures SqlCount(Entries(d, on)) == if d.ran then 1 else 0
  {
    SqlCountJoins((if d.newSession then [Opened(on)] else []) + (if d.begun then [Begun(on)] else []),
                  if d.ran then [UserSql(on, d.inTransaction)] else []);
    SqlCountJoins(if d.newSession then [Opened(on)] else [], if d.begun then [Begun(on)] else []);
  }

  /** What a whole run adds: a first attempt and, if that found the session
      gone, a second one on a new session. */
  lemma RunAdds(w: World, s: Service, session: Option<nat>, begin: bool) returns (first: Added, second: Option<Added>)
    ensures var o := RunSql(w, s, session, begin);
            var a := Try(w, s, session, begin, 0);
            (a.Over? <==> second.None?) && 1 <= o.attempts <= 2 &&
            (second.Some? ==> !first.ran && StateAfter(a).next >= s.next) &&
            o.service.log == s.log + Entries(first, Target(s, session)) +
              (if second.None? then [] else Entries(second.value, StateAfter(a).next)) &&
            (!begin ==> !first.begun && (second.Some? ==> !second.value.begun)) &&
            (first.ran && begin ==> first.begun && first.inTransaction) &&
            (first.ran && !begin ==> first.inTransaction == WasInTransaction(s, session)) &&
            (second.Some? && second.value.ran ==>
              if begin then second.value.begun && second.value.inTransaction else !second.value.inTransaction)
  {
    hide Try;
    first := TryAdds(w, s, session, begin, 0);
    second := None;
    var a := Try(w, s, session, begin, 0);
    if a.Retry? {
      var d := TryAdds(w, a.service, None, begin, 1);
      second := Some(d);
    } else {
      assert s.log + Entries(first, Target(s, session)) + [] == s.log + Entries(first, Target(s, session));
    }
  }

  /** For every world: the user's SQL runs at most once, in at most two
      attempts. */
  lemma SqlRunsAtMostOnce(w: World, s: Service, session: Option<nat>, begin: bool)
    ensures var o := RunSql(w, s, session, begin);
            1 <= o.attempts <= 2 && s.log <= o.service.log &&
            SqlCount(o.service.log) <= SqlCount(s.log) + 1
  {
    var first, second := RunAdds(w, s, session, begin);
    hide RunSql;
    hide Entries;
    hide Try;
    var e := Entries(first, Target(s, session));
    EntriesCount(first, Target(s, session));
    SqlCountJoins(s.log, e);
    if second.Some? {
      var on := StateAfter(Try(w, s, session, begin, 0)).next;
      EntriesCount(second.value, on);
      SqlCountJoins(s.log + e, Entries(second.value, on));
    } else {
      assert s.log + e + [] == s.log + e;
    }
  }

  /** Entry `i` is the user's SQL, on a session where BEGIN succeeded
      immediately before it. */
  ghost predicate BegunJustBefore(log: seq<Entry>, i: nat)
    requires i < |log| && log[i].UserSql?
  {
    i > 0 && log[i - 1] == Begun(log[i].session) && log[i].inTransaction
  }

  lemma EntryOf(log: seq<Entry>, d: Added, on: nat, i: nat)
    requires |log| <= i < |log + Entries(d, on)| && (log + Entries(d, on))[i].UserSql?
    ensures d.ran && (log + Entries(d, on))[i] == UserSql(on, d.inTransaction)
    ensures d.begun ==> i > 0 && (log + Entries(d, on))[i - 1] == Begun(on)
  {
  }

  /** The entry of the user's SQL comes from the attempt that ran it. */
  lemma SqlEntry(w: World, s: Service, session: Option<nat>, begin: bool, i: nat) returns (d: Added, on: nat)
    requires var log := RunSql(w, s, session, begin).service.log; |s.log| <= i < |log| && log[i].UserSql?
    ensures d.ran && RunSql(w, s, session, begin).service.log[i] == UserSql(on, d.inTransaction)
    ensures if Try(w, s, session, begin, 0).Over? then on == Target(s, session) else on >= s.next
    ensures d.begun ==> i > 0 && RunSql(w, s, session, begin).service.log[i - 1] == Begun(on)
    ensures begin ==> d.begun && d.inTransaction
    ensures !begin ==>
              d.inTransaction == (Try(w, s, session, begin, 0).Over? && WasInTransaction(s, session))
  {
    var first, second := RunAdds(w, s, session, begin);
    var log := RunSql(w, s, session, begin).service.log;
    hide *;
    var front := s.log + Entries(first, Target(s, session));
    d, on := first, Target(s, session);
    if second.None? {
      assert front + [] == front;
      EntryOf(s.log, d, on, i);
    } else {
      if i < |front| {
        assert front[i] == log[i];
        EntryOf(s.log, d, on, i);
        assert false;
      }
      d, on := second.value, StateAfter(Try(w, s, session, begin, 0)).next;
      EntryOf(front, d, on, i);
    }
  }

  /** In a manual-commit tab without an open transaction, the SQL runs only
      right after a successful BEGIN on the same session. */
  lemma SqlFollowsBegin(w: World, s: Service, session: Option<nat>)
    ensures var log := RunSql(w, s, session, true).service.log;
            forall i :: |s.log| <= i < |log| && log[i].UserSql? ==> BegunJustBefore(log, i)
  {
    var log := RunSql(w, s, session, true).service.log;
    hide RunSql;
    forall i | |s.log| <= i < |log| && log[i].UserSql? ensures BegunJustBefore(log, i) {
      var d, on := SqlEntry(w, s, session, true, i);
    }
  }

  /** The first request of a run finds the session gone. */
  predicate FoundGone(w: World, s: Service, session: nat) {
    var r := ReplyOf(w, Passed(w, s), session);
    r.Fails? && Retries(0, r.error)
  }

  lemma GoneIsRetried(w: World, s: Service, session: nat)
    ensures Try(w, s, Some(session), false, 0).Retry? <==> FoundGone(w, s, session)
  {
  }

  /** When a tab goes on in its open transaction (so no BEGIN is sent), the
      SQL stays in that transaction exactly unless the session is found gone;
      then the retry runs it on a new session, outside any transaction. */
  lemma OpenTransactionIsKeptIffSessionLives(w: World, s: Service, session: nat, i: nat)
    requires session in s.live ==> s.live[session]
    requires |s.log| <= i < |RunSql(w, s, Some(session), false).service.log|
    requires RunSql(w, s, Some(session), false).service.log[i].UserSql?
    ensures RunSql(w, s, Some(session), false).service.log[i].inTransaction <==> !FoundGone(w, s, session)
  {
    var d, on := SqlEntry(w, s, Some(session), false, i);
    GoneIsRetried(w, s, session);
    hide RunSql;
    hide Try;
    hide FoundGone;
  }

  /** Without a session and without BEGIN, the SQL runs on a new session,
      outside any transaction. */
  lemma NewSessionHasNoTransaction(w: World, s: Service, i: nat)
    requires |s.log| <= i < |RunSql(w, s, None, false).service.log|
    requires RunSql(w, s, None, false).service.log[i].UserSql?
    ensures !RunSql(w, s, None, false).service.log[i].inTransaction
  {
    var d, on := SqlEntry(w, s, None, false, i);
    hide RunSql;
    hide Try;
  }

  /** The service does not know the session (404), or its connection was lost
      (409 with a detail that says so). */
  predicate SaysGone(r: Reply) {
    r.Fails? && r.error.Api? && (r.error.status == 404 || (r.error.status == 409 && r.error.lost))
  }

  /** The reply to the first request of a run on a session. */
  function FirstReply(w: World, s: Service, session: nat): Reply {
    ReplyOf(w, Passed(w, s), session)
  }

  /** BEGIN ran to its end without an error. */
  predicate BeginWorked(r: Reply) {
    r.Runs? && !r.broken && Failure !in r.events
  }

  /** A run tries again exactly if the session is reported gone, whether to
      BEGIN or to the SQL after it; to SQL without BEGIN it is the first
      request. */
  lemma RetriedIff(w: World, s: Service, session: nat, begin: bool)
    ensures FoundGone(w, s, session) <==> SaysGone(FirstReply(w, s, session))
    ensures var first := FirstReply(w, s, session);
            var begun := BeginEffect(Passed(w, s), session, first);
            RunSql(w, s, Some(session), begin).attempts == 2 <==>
              SaysGone(first) || (begin && BeginWorked(first) && SaysGone(FirstReply(w, begun, session)))
  {
    var a := Try(w, s, Some(session), begin, 0);
    assert a.Retry? <==>
      SaysGone(FirstReply(w, s, session)) ||
      (begin && BeginWorked(FirstReply(w, s, session)) &&
       SaysGone(FirstReply(w, BeginEffect(Passed(w, s), session, FirstReply(w, s, session)), session)));
    hide BeginEffect;
    hide SaysGone;
    var t := TryAdds(w, s, Some(session), begin, 0);
    if a.Retry? {
      var u := TryAdds(w, a.service, None, begin, 1);
    }
    hide Try;
  }

  /** A dead session is replaced: the run goes on with a second attempt on a
      new session, whichever way the service says that the old one is gone;
      if none can be opened it fails and nothing has run. */
  lemma DeadSessionIsReplaced(w: World, s: Service, session: nat, begin: bool)
    requires session !in s.live || session in w.drops(s.clock)
    ensures var out := RunSql(w, s, Some(session), begin);
            out.attempts == 2 &&
            if w.opens(s.clock + 1) then |out.service.log| > |s.log| && out.service.log[|s.log|] == Opened(s.next)
            else out.ending == Failed && out.service.log == s.log && out.forwarded == []
  {
    var t := Passed(w, s);
    assert SaysGone(ReplyOf(w, t, session));
    RetriedIff(w, s, session, begin);
    assert Try(w, s, Some(session), begin, 0) == Retry(t);
    if w.opens(t.clock) {
      var u := OpenEffect(Passed(w, t));
      assert Try(w, t, None, begin, 1) == OnSession(w, u, s.next, begin, 1);
      var d := OnSessionAdds(w, u, s.next, begin, 1);
      assert u.log == s.log + [Opened(s.next)];
      hide OnSession;
      hide Entries;
    }
  }

  /** The SQL runs on the session it was given, unless that is reported gone;
      otherwise, and without one, on a new session. */
  lemma SqlRunsWhereItShould(w: World, s: Service, session: Option<nat>, begin: bool, i: nat)
    requires var log := RunSql(w, s, session, begin).service.log; |s.log| <= i < |log| && log[i].UserSql?
    ensures var out := RunSql(w, s, session, begin);
            if session.Some? && out.attempts == 1 then out.service.log[i].session == session.value
            else out.service.log[i].session >= s.next
  {
    var first, second := RunAdds(w, s, session, begin);
    var d, on := SqlEntry(w, s, session, begin, i);
    var a := TryAdds(w, s, session, begin, 0);
    hide Try;
    if Try(w, s, session, begin, 0).Retry? {
      var b := TryAdds(w, Try(w, s, session, begin, 0).service, None, begin, 1);
    }
  }

  /** BEGIN is only sent when it is asked for. */
  lemma NoBeginUnasked(w: World, s: Service, session: Option<nat>, i: nat)
    requires |s.log| <= i < |RunSql(w, s, session, false).service.log|
    ensures !RunSql(w, s, session, false).service.log[i].Begun?
  {
    var first, second := RunAdds(w, s, session, false);
    hide RunSql;
  }

  /** Session 0 expires before the first request; everything else works. */
  function ExpiringWorld(): World {
    World(k => if k == 0 then {0} else {}, _ => true, _ => Runs([], false), _ => true)
  }

  /** It does happen: the session of the open transaction expires, and the
      SQL of a manual-commit tab runs without any transaction. */
  lemma ExpiredTransactionIsLost()
    ensures RunSql(ExpiringWorld(), Service(map[0 := true], 1, [], 0), Some(0), false).service.log ==
            [Opened(1), UserSql(1, false)]
  {
    var w := ExpiringWorld();
    var s := Service(map[0 := true], 1, [], 0);
    var t := Passed(w, s);
    assert Try(w, s, Some(0), false, 0) == Retry(t);
    assert t.live == map[];
    var u := OpenEffect(Passed(w, t));
    var v := Passed(w, u);
    assert v.live[1] == false;
    assert Try(w, t, None, false, 1) == SendSql(w, u, 1, 1);
    assert ReplyOf(w, v, 1) == Runs([], false);
  }
}

module RunSqlTask {
  import opened Prelude
  import opened RunSqlSpec

  /** The client's side: what it has been told to use, and the service. */
  class Task {
    const world: World
    var service: Service

    constructor (world: World, service: Service)
      ensures this.world == world && this.service == service
    {
      this.world, this.service := world, service;
    }

    /** POST a query to a session and read the reply. */
    method Send(session: nat, begin: bool) returns (r: Reply)
      modifies this
      ensures var t := Passed(world, old(service));
              r == ReplyOf(world, t, session) &&
              service == if begin then BeginEffect(t, session, r) else SqlEffect(t, session, r)
    {
      service := Passed(world, service);
      r := ReplyOf(world, service, session);
      service := if begin then BeginEffect(service, session, r) else SqlEffect(service, session, r);
    }

    /** Open a session, if the service lets us. */
    method Open() returns (session: Option<nat>)
      modifies this
      ensures var t := Passed(world, old(service));
              if world.opens(old(service).clock) then session == Some(t.next) && service == OpenEffect(t)
              else session == None && service == t
    {
      var allowed := world.opens(service.clock);
      service := Passed(world, service);
      if !allowed { return None; }
      session := Some(service.next);
      service := OpenEffect(service);
    }

    /** BEGIN and the SQL on one session; `gone` asks for a retry. */
    method OnSession(session: nat, begin: bool, attempt: nat) returns (gone: bool, ending: Ending, forwarded: seq<Event>)
      modifies this
      ensures RunSqlSpec.OnSession(world, old(service), session, begin, attempt) ==
              if gone then Retry(service) else Over(Outcome(service, ending, forwarded, attempt + 1))
    {
      if begin {
        var r := Send(session, true);
        match r {
          case Runs(events, broken) =>
            if broken || Failure in events { return false, Failed, []; }
          case RunsUnseen => return false, Failed, [];
          case Fails(e) => return Retries(attempt, e), Failed, [];
        }
      }
      var r := Send(session, false);
      match r {
        case Runs(events, broken) => return false, if broken then Failed else Streamed, events;
        case RunsUnseen => return false, Failed, [];
        case Fails(e) => return Retries(attempt, e), Failed, [];
      }
    }

    /** The task `run_sql` spawns: a loop of at most two attempts. */
    method Run(given: Option<nat>, begin: bool) returns (ending: Ending, forwarded: seq<Event>, attempts: nat)
      modifies this
      ensures RunSql(world, old(service), given, begin) == Outcome(service, ending, forwarded, attempts)
    {
      var session := given;
      attempts := 0;
      while attempts < 2
        invariant attempts <= 2
        invariant attempts == 0 ==> session == given && service == old(service)
        invariant attempts >= 1 ==> session == None && Try(world, old(service), given, begin, 0).Retry?
        invariant attempts == 1 ==> Try(world, old(service), given, begin, 0) == Retry(service)
        invariant attempts == 2 ==>
          Try(world, Try(world, old(service), given, begin, 0).service, None, begin, 1) == Retry(service)
      {
        hide RunSqlSpec.OnSession;
        var sid := session;
        if sid.None? {
          sid := Open();
          if sid.None? { return Failed, [], attempts + 1; }
        }
        var gone;
        gone, ending, forwarded := OnSession(sid.value, begin, attempts);
        attempts := attempts + 1;
        if !gone { return; }
        session := None;
      }
      return Failed, [], 2;
    }
  }
}
