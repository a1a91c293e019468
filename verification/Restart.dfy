/** Restarting the service in place: the requests of the admin API, the
    one-slot mailbox with its wake-up permit, and the control loop
    (crates/sqail-service/src/lib.rs), as atomic steps that interleave freely. */
module RestartSpec {
  import opened Prelude

  /** Settings, and whether a start may create the bootstrap admin token. */
  datatype Config = Config(settings: nat, bootstrap: bool) {
    function Sealed(): Config { this.(bootstrap := false) }
  }

  datatype Request = Reload | Apply(effective: Config, file: Config)

  /** A config file written for request number `request`. */
  datatype Saved = Saved(request: nat, file: Config)

  /** Where the control loop stands. */
  datatype Loop =
    | Booting                                         // the first start
    | BootAnnounce                                    // on_start after it
    | Waiting                                         // at select!
    | Woken                                           // permit used, about to take
    | Reading                                         // re-reading the config file
    | Stopping(next: Config, save: Option<Config>)    // waiting for the server to end
    | Starting(next: Config, save: Option<Config>)
    | Saving(next: Config, file: Config)              // up; writing the config file
    | Restoring                                       // starting with the old settings
    | Announcing                                      // on_start
    | Draining                                        // shutting down
    | Exited

  datatype State = State(
    pending: Option<Request>,       // Control.pending
    permit: bool,                   // Control.wake
    failed: bool,                   // Control.last_error is set
    notifying: set<nat>,            // requesters between storing and notifying
    loop: Loop,
    current: Config,
    alive: seq<Config>,             // servers running, by the config they started with
    tokens: nat,                    // bootstrap tokens created
    made: seq<Request>,             // history: requests stored,
    handled: seq<nat>,              //   the indices of those taken,
    started: seq<Config>,           //   configs a server came up with,
    saved: seq<Saved>)              //   config files written, with their request

  /** How a start went: up or not, and whether it created the token first. */
  datatype Outcome = Outcome(up: bool, created: bool)

  datatype Step =
    | Store(who: nat, request: Request)
    | Notify(who: nat)
    | Boot(boot: Outcome)
    | Announce(fine: bool)
    | Wake
    | Shutdown
    | Take
    | Read(file: Option<Config>)
    | Stop(clean: bool)
    | Start(start: Outcome)
    | Save(written: bool)
    | Restore(restore: Outcome)
    | Drain

  function Init(config: Config): State {
    State(None, false, false, {}, Booting, config, [], 0, [], [], [], [])
  }

  /** `start_with` creates a token only if its config says it may. */
  predicate MayHappen(config: Config, o: Outcome) {
    o.created ==> config.bootstrap
  }

  function Started(s: State, config: Config, o: Outcome): State {
    var t := if o.created then s.(tokens := s.tokens + 1) else s;
    if o.up then t.(alive := t.alive + [config], started := t.started + [config]) else t
  }

  /** One atomic step, if it can be taken. */
  function Next(s: State, step: Step): Option<State> {
    match step
    case Store(who, request) =>
      if who in s.notifying then None
      else Some(s.(pending := Some(request), made := s.made + [request], notifying := s.notifying + {who}))
    case Notify(who) =>
      if who !in s.notifying then None
      else Some(s.(permit := true, notifying := s.notifying - {who}))
    case Boot(o) =>
      if !s.loop.Booting? || !MayHappen(s.current, o) then None
      else Some(Started(s, s.current, o).(loop := if o.up then BootAnnounce else Exited))
    case Announce(fine) =>
      if s.loop.BootAnnounce? then
        Some(if fine then s.(current := s.current.Sealed(), loop := Waiting) else s.(loop := Exited))
      else if s.loop.Announcing? then Some(s.(loop := if fine then Waiting else Exited))
      else None
    case Wake =>
      if s.loop.Waiting? && s.permit then Some(s.(permit := false, loop := Woken)) else None
    case Shutdown =>
      if s.loop.Waiting? then Some(s.(loop := Draining)) else None
    case Take => if s.loop.Woken? then Some(Taken(s)) else None
    case Read(file) =>
      if !s.loop.Reading? then None
      else Some(match file
        case Some(c) => s.(loop := Stopping(c.Sealed(), None))
        case None => s.(failed := true, loop := Waiting))
    case Stop(clean) =>
      if !s.loop.Stopping? then None
      else Some(s.(alive := [], loop := if clean then Starting(s.loop.next, s.loop.save) else Exited))
    case Start(o) =>
      if !s.loop.Starting? || !MayHappen(s.loop.next, o) then None
      else Some(AfterStart(Started(s, s.loop.next, o), s.loop.next, s.loop.save, o.up))
    case Save(written) =>
      if s.loop.Saving? then Some(AfterSave(s, s.loop.next, s.loop.file, written)) else None
    case Restore(o) =>
      if !s.loop.Restoring? || !MayHappen(s.current, o) then None
      else Some(Started(s, s.current, o).(loop := if o.up then Announcing else Exited))
    case Drain =>
      if s.loop.Draining? then Some(s.(alive := [], loop := Exited)) else None
  }

  /** Take the pending request, if there still is one, and act on it. */
  function Taken(s: State): State {
    if s.pending.None? then s.(loop := Waiting)
    else
      var t := s.(pending := None, handled := s.handled + [if s.made == [] then 0 else |s.made| - 1]);
      match s.pending.value
      case Reload => t.(loop := Reading)
      case Apply(effective, file) => t.(loop := Stopping(effective.Sealed(), Some(file)))
  }

  /** The new settings are up, or the old ones are needed again. */
  function AfterStart(t: State, next: Config, save: Option<Config>, up: bool): State {
    if !up then t.(failed := true, loop := Restoring)
    else if save.Some? then t.(loop := Saving(next, save.value))
    else t.(failed := false, current := next, loop := Announcing)
  }

  /** The settings are in use whether or not they could be saved. */
  function AfterSave(s: State, next: Config, file: Config, written: bool): State {
    var request := if s.handled == [] then 0 else s.handled[|s.handled| - 1];
    s.(saved := if written then s.saved + [Saved(request, file)] else s.saved,
       failed := !written, current := next, loop := Announcing)
  }

  /** The state after `steps`, if each of them could be taken. */
  function RunFrom(s: State, steps: seq<Step>): Option<State> {
    if steps == [] then Some(s)
    else
      var before := RunFrom(s, steps[..|steps| - 1]);
      if before.None? then None else Next(before.value, steps[|steps| - 1])
  }

  /** At most one server, started with the settings the loop believes in. */
  ghost predicate ServerFits(s: State) {
    match s.loop
    case Booting => s.alive == []
    case BootAnnounce => s.alive == [s.current]
    case Starting(_, _) => s.alive == []
    case Restoring => s.alive == []
    case Saving(next, _) => s.alive == [next]
    case Exited => |s.alive| <= 1
    case _ => |s.alive| == 1 && s.alive[0].Sealed() == s.current
  }

  /** After the boot no config in use may create a token again. */
  ghost predicate TokenFits(s: State) {
    s.tokens <= 1 && (s.loop.Booting? ==> s.tokens == 0 && s.started == []) &&
    (!s.loop.Booting? && !s.loop.BootAnnounce? && !s.loop.Exited? ==> !s.current.bootstrap) &&
    (s.loop.Stopping? || s.loop.Starting? || s.loop.Saving? ==> !s.loop.next.bootstrap)
  }

  /** A stored request is never forgotten: a permit is stored, or somebody is
      about to store one, or the loop is about to look. */
  ghost predicate WillBeSeen(s: State) {
    s.pending.Some? ==> s.permit || s.notifying != {} || s.loop.Woken?
  }

  /** Handled requests are some of those made, in order, each once; the slot
      holds the newest one until it is taken. */
  ghost predicate HistoryFits(s: State) {
    (forall i :: 0 <= i < |s.handled| ==> s.handled[i] < |s.made|) &&
    (forall i, j :: 0 <= i < j < |s.handled| ==> s.handled[i] < s.handled[j]) &&
    (s.pending.Some? ==>
      s.made != [] && s.pending.value == s.made[|s.made| - 1] && !LastHandled(s)) &&
    (s.pending.None? ==> s.made == [] || LastHandled(s))
  }

  predicate LastHandled(s: State) {
    s.handled != [] && s.handled[|s.handled| - 1] == |s.made| - 1
  }

  /** `n` is a request to apply `effective`, with `file` to save. */
  ghost predicate Asked(made: seq<Request>, n: nat, next: Config, file: Config) {
    n < |made| && made[n].Apply? && made[n].effective.Sealed() == next && made[n].file == file
  }

  /** A file was written for an Apply request whose settings had started. */
  ghost predicate SavedAfterStart(s: State, saved: Saved) {
    saved.request in s.handled && saved.request < |s.made| && s.made[saved.request].Apply? &&
    s.made[saved.request].file == saved.file && s.made[saved.request].effective.Sealed() in s.started
  }

  ghost predicate Invariant(s: State) {
    ServerFits(s) && TokenFits(s) && WillBeSeen(s) && HistoryFits(s) && AllSaved(s) && InHand(s)
  }

  lemma ServerKept(s: State, step: Step)
    requires ServerFits(s) && TokenFits(s) && Next(s, step).Some?
    ensures ServerFits(Next(s, step).value)
  {
    match step
    case Start(_) =>
    case Save(_) =>
    case Take =>
    case Boot(_) =>
    case Restore(_) =>
    case _ =>
  }

  lemma TokenKept(s: State, step: Step)
    requires TokenFits(s) && Next(s, step).Some?
    ensures TokenFits(Next(s, step).value)
  {
  }

  lemma WillBeSeenKept(s: State, step: Step)
    requires WillBeSeen(s) && Next(s, step).Some?
    ensures WillBeSeen(Next(s, step).value)
  {
    if step.Store? {
      assert step.who in Next(s, step).value.notifying;
    }
  }

  lemma HistoryStored(s: State, request: Request)
    requires HistoryFits(s)
    ensures HistoryFits(s.(pending := Some(request), made := s.made + [request]))
  {
  }

  lemma HistoryTaken(s: State)
    requires HistoryFits(s) && s.pending.Some?
    ensures s.made != []
    ensures HistoryFits(s.(pending := None, handled := s.handled + [|s.made| - 1]))
  {
  }

  lemma HistoryFrame(s: State, t: State)
    requires HistoryFits(s) && t.pending == s.pending && t.made == s.made && t.handled == s.handled
    ensures HistoryFits(t)
  {
  }

  lemma HistoryKept(s: State, step: Step)
    requires HistoryFits(s) && Next(s, step).Some?
    ensures HistoryFits(Next(s, step).value)
  {
    hide HistoryFits;
    var t := Next(s, step).value;
    if step.Store? {
      HistoryStored(s, step.request);
      HistoryFrame(s.(pending := Some(step.request), made := s.made + [step.request]), t);
    } else if step.Take? && s.pending.Some? {
      HistoryTaken(s);
      HistoryFrame(s.(pending := None, handled := s.handled + [|s.made| - 1]), t);
    } else {
      HistoryFrame(s, t);
    }
  }

  /** Saves stay justified as the histories grow. */
  lemma SavedStays(s: State, t: State)
    requires s.handled <= t.handled && s.made <= t.made && s.started <= t.started
    ensures forall saved :: SavedAfterStart(s, saved) ==> SavedAfterStart(t, saved)
  {
    forall saved | SavedAfterStart(s, saved) ensures SavedAfterStart(t, saved) {
      var i :| 0 <= i < |s.handled| && s.handled[i] == saved.request;
      assert t.handled[i] == saved.request;
      var j :| 0 <= j < |s.started| && s.started[j] == s.made[saved.request].effective.Sealed();
      assert t.started[j] == s.started[j];
    }
  }

  ghost predicate AllSaved(s: State) {
    forall i :: 0 <= i < |s.saved| ==> SavedAfterStart(s, s.saved[i])
  }

  /** What the loop is about to save was asked for by the request in hand. */
  ghost predicate InHand(s: State) {
    match s.loop
    case Stopping(next, Some(file)) => s.handled != [] && Asked(s.made, s.handled[|s.handled| - 1], next, file)
    case Starting(next, Some(file)) => s.handled != [] && Asked(s.made, s.handled[|s.handled| - 1], next, file)
    case Saving(next, file) =>
      s.handled != [] && Asked(s.made, s.handled[|s.handled| - 1], next, file) && next in s.started
    case _ => true
  }

  lemma MadeGrows(s: State, step: Step)
    requires Next(s, step).Some?
    ensures s.made <= Next(s, step).value.made
  {
  }

  lemma HandledGrows(s: State, step: Step)
    requires Next(s, step).Some?
    ensures s.handled <= Next(s, step).value.handled
  {
  }

  lemma StartedGrows(s: State, step: Step)
    requires Next(s, step).Some?
    ensures s.started <= Next(s, step).value.started
  {
    match step
    case Boot(_) =>
    case Start(_) =>
    case Restore(_) =>
    case _ =>
  }

  lemma HistoriesGrow(s: State, step: Step)
    requires Next(s, step).Some?
    ensures var t := Next(s, step).value; s.handled <= t.handled && s.made <= t.made && s.started <= t.started
  {
    hide Next;
    MadeGrows(s, step);
    HandledGrows(s, step);
    StartedGrows(s, step);
  }

  lemma InHandTaken(s: State)
    requires HistoryFits(s)
    ensures InHand(Taken(s))
  {
    var t := Taken(s);
    assert s.pending.Some? ==> s.made[|s.made| - 1] == s.pending.value && t.handled[|t.handled| - 1] == |s.made| - 1;
  }

  lemma InHandStarted(s: State, o: Outcome)
    requires InHand(s) && s.loop.Starting?
    ensures InHand(AfterStart(Started(s, s.loop.next, o), s.loop.next, s.loop.save, o.up))
  {
    assert o.up ==> (s.started + [s.loop.next])[|s.started|] == s.loop.next;
  }

  lemma InHandStored(s: State, who: nat, request: Request)
    requires InHand(s)
    ensures InHand(s.(pending := Some(request), made := s.made + [request], notifying := s.notifying + {who}))
  {
  }

  lemma InHandKept(s: State, step: Step)
    requires HistoryFits(s) && InHand(s) && Next(s, step).Some?
    ensures InHand(Next(s, step).value)
  {
    hide HistoryFits;
    match step
    case Store(who, request) => InHandStored(s, who, request); hide InHand;
    case Take => InHandTaken(s); hide InHand;
    case Start(o) => InHandStarted(s, o); hide InHand;
    case _ =>
  }

  lemma OnlySaveSaves(s: State, step: Step)
    requires Next(s, step).Some? && !step.Save?
    ensures Next(s, step).value.saved == s.saved
  {
  }

  lemma AllSavedSaved(s: State, written: bool)
    requires AllSaved(s) && InHand(s) && s.loop.Saving?
    ensures AllSaved(AfterSave(s, s.loop.next, s.loop.file, written))
  {
    var t := AfterSave(s, s.loop.next, s.loop.file, written);
    SavedStays(s, t);
    assert SavedAfterStart(s, Saved(s.handled[|s.handled| - 1], s.loop.file));
    hide SavedAfterStart;
    assert forall i :: 0 <= i < |s.saved| ==> t.saved[i] == s.saved[i];
  }

  lemma AllSavedKept(s: State, step: Step)
    requires AllSaved(s) && InHand(s) && Next(s, step).Some?
    ensures AllSaved(Next(s, step).value)
  {
    if step.Save? {
      AllSavedSaved(s, step.written);
      hide AllSaved;
    } else {
      OnlySaveSaves(s, step);
      HistoriesGrow(s, step);
      SavedStays(s, Next(s, step).value);
      hide Next;
      hide SavedAfterStart;
    }
  }

  lemma InvariantKept(s: State, step: Step)
    requires Invariant(s) && Next(s, step).Some?
    ensures Invariant(Next(s, step).value)
  {
    hide Next, ServerFits, TokenFits, WillBeSeen, HistoryFits, AllSaved, InHand;
    ServerKept(s, step);
    TokenKept(s, step);
    WillBeSeenKept(s, step);
    HistoryKept(s, step);
    AllSavedKept(s, step);
    InHandKept(s, step);
  }

  lemma {:induction false} InvariantHolds(config: Config, steps: seq<Step>)
    requires RunFrom(Init(config), steps).Some?
    ensures Invariant(RunFrom(Init(config), steps).value)
    decreases |steps|
  {
    if steps != [] {
      var front, step := steps[..|steps| - 1], steps[|steps| - 1];
      InvariantHolds(config, front);
      var s := RunFrom(Init(config), front).value;
      hide *;
      InvariantKept(s, step);
    }
  }

  /** No restart is lost: in every interleaving, once the loop waits with no
      permit stored and nobody is about to store one, the last request made
      has been taken. */
  lemma NoLostRestart(config: Config, steps: seq<Step>)
    requires RunFrom(Init(config), steps).Some?
    ensures var s := RunFrom(Init(config), steps).value;
            s.loop.Waiting? && !s.permit && s.notifying == {} ==> s.pending.None? && (s.made == [] || LastHandled(s))
    ensures var s := RunFrom(Init(config), steps).value;
            forall i, j :: 0 <= i < j < |s.handled| ==> s.handled[i] < s.handled[j] < |s.made|
  {
    InvariantHolds(config, steps);
  }

  /** Safety of every run. */
  lemma RestartIsSafe(config: Config, steps: seq<Step>)
    requires RunFrom(Init(config), steps).Some?
    ensures var s := RunFrom(Init(config), steps).value;
            |s.alive| <= 1 && s.tokens <= 1 &&
            (s.loop.Waiting? ==> s.alive != [] && s.alive[0].Sealed() == s.current) &&
            (forall i :: 0 <= i < |s.saved| ==> SavedAfterStart(s, s.saved[i]))
  {
    InvariantHolds(config, steps);
  }

  /** A bootstrap token can only come from the very first start. */
  lemma TokensComeFromTheFirstStart(s: State, step: Step)
    requires TokenFits(s) && Next(s, step).Some? && Next(s, step).value.tokens != s.tokens
    ensures step.Boot? && s.started == [] && s.tokens == 0
  {
  }

  /** Steps of the control loop, as opposed to the requesters'. */
  predicate LoopStep(step: Step) {
    !step.Store? && !step.Notify?
  }

  /** The settings in use while the loop is falling back to them. */
  ghost predicate FallingBack(s: State, current: Config) {
    s.current == current && s.failed &&
    match s.loop
      case Restoring => true
      case Announcing => s.alive == [current]
      case Waiting => s.alive == [current]
      case Exited => true
      case _ => false
  }

  lemma FallingBackKept(s: State, step: Step, current: Config)
    requires ServerFits(s) && FallingBack(s, current) && Next(s, step).Some? && !step.Wake? && !step.Shutdown?
    ensures FallingBack(Next(s, step).value, current)
  {
  }

  /** After a failed start, whatever happens until the loop wakes again: the
      settings are the old ones, the error is recorded, and if the loop waits
      the old settings are what the server runs with. */
  lemma {:induction false} FailedStartFallsBack(s: State, o: Outcome, steps: seq<Step>)
    requires Invariant(s) && s.loop.Starting? && Next(s, Start(o)).Some? && !o.up
    requires forall i :: 0 <= i < |steps| ==> !steps[i].Wake? && !steps[i].Shutdown?
    requires RunFrom(Next(s, Start(o)).value, steps).Some?
    ensures FallingBack(RunFrom(Next(s, Start(o)).value, steps).value, s.current)
    ensures Invariant(RunFrom(Next(s, Start(o)).value, steps).value)
    decreases |steps|
  {
    if steps == [] {
      InvariantKept(s, Start(o));
      hide Invariant;
    } else {
      var front, step := steps[..|steps| - 1], steps[|steps| - 1];
      FailedStartFallsBack(s, o, front);
      var t := RunFrom(Next(s, Start(o)).value, front).value;
      hide Next;
      InvariantKept(t, step);
      assert ServerFits(t);
      hide Invariant;
      FallingBackKept(t, step, s.current);
    }
  }

  /** How many steps the loop can take before it must wait. */
  function Rank(s: State): nat {
    (if s.permit then 10 else 0) +
    match s.loop
      case Exited => 0
      case Draining => 1
      case Waiting => 2
      case Announcing => 3
      case BootAnnounce => 3
      case Restoring => 4
      case Saving(_, _) => 4
      case Booting => 5
      case Starting(_, _) => 5
      case Stopping(_, _) => 6
      case Reading => 7
      case Woken => 8
  }

  lemma LoopStepsDescend(s: State, step: Step)
    requires Next(s, step).Some? && LoopStep(step)
    ensures Rank(Next(s, step).value) < Rank(s)
  {
  }

  /** While nobody asks for anything the loop takes boundedly many steps. */
  lemma {:induction false} QuietRunsEnd(s: State, steps: seq<Step>)
    requires RunFrom(s, steps).Some? && forall i :: 0 <= i < |steps| ==> LoopStep(steps[i])
    ensures |steps| + Rank(RunFrom(s, steps).value) <= Rank(s)
    decreases |steps|
  {
    if steps != [] {
      var front, step := steps[..|steps| - 1], steps[|steps| - 1];
      QuietRunsEnd(s, front);
      LoopStepsDescend(RunFrom(s, front).value, step);
      hide Next;
      hide Rank;
    }
  }

  /** The loop can always go on, unless it has exited or waits in vain. */
  lemma NeverStuck(s: State) returns (step: Step)
    requires !s.loop.Exited? && !(s.loop.Waiting? && !s.permit)
    ensures LoopStep(step) && !step.Shutdown? && Next(s, step).Some?
  {
    step := match s.loop
      case Booting => Boot(Outcome(true, false))
      case BootAnnounce => Announce(true)
      case Waiting => Wake
      case Woken => Take
      case Reading => Read(None)
      case Stopping(_, _) => Stop(true)
      case Starting(_, _) => Start(Outcome(true, false))
      case Saving(_, _) => Save(true)
      case Restoring => Restore(Outcome(true, false))
      case Announcing => Announce(true)
      case Draining => Drain
      case Exited => Drain;
  }

  /** Liveness without a scheduler: in any run whose requesters have all
      finished, the loop gets to rest after boundedly many further steps, and
      a loop at rest has exited or has taken the last request made. */
  lemma RestartsComplete(config: Config, before: seq<Step>, after: seq<Step>)
    requires RunFrom(Init(config), before).Some? && RunFrom(Init(config), before).value.notifying == {}
    requires RunFrom(RunFrom(Init(config), before).value, after).Some?
    requires forall i :: 0 <= i < |after| ==> LoopStep(after[i])
    ensures |after| <= 18
    ensures var t := RunFrom(RunFrom(Init(config), before).value, after).value;
            t.loop.Exited? || (t.loop.Waiting? && !t.permit) || exists step :: LoopStep(step) && Next(t, step).Some?
    ensures var t := RunFrom(RunFrom(Init(config), before).value, after).value;
            t.loop.Waiting? && !t.permit ==> t.pending.None? && (t.made == [] || LastHandled(t))
  {
    hide RunFrom;
    hide Next;
    hide LastHandled;
    hide Init;
    var s := RunFrom(Init(config), before).value;
    var t := RunFrom(s, after).value;
    QuietRunsEnd(s, after);
    RunsJoin(Init(config), before, after);
    QuietKeepsNotifying(s, after);
    NoLostRestart(config, before + after);
    if !t.loop.Exited? && !(t.loop.Waiting? && !t.permit) {
      var step := NeverStuck(t);
    }
  }

  lemma {:induction false} RunsJoin(s: State, a: seq<Step>, b: seq<Step>)
    requires RunFrom(s, a).Some?
    ensures RunFrom(s, a + b) == RunFrom(RunFrom(s, a).value, b)
    decreases |b|
  {
    if b == [] {
      assert a + b == a;
    } else {
      var front := b[..|b| - 1];
      assert (a + b)[..|a + b| - 1] == a + front;
      RunsJoin(s, a, front);
      hide Next;
    }
  }

  lemma QuietStep(s: State, step: Step)
    requires Next(s, step).Some? && LoopStep(step)
    ensures Next(s, step).value.notifying == s.notifying
  {
  }

  lemma {:induction false} QuietKeepsNotifying(s: State, steps: seq<Step>)
    requires RunFrom(s, steps).Some? && forall i :: 0 <= i < |steps| ==> LoopStep(steps[i])
    ensures RunFrom(s, steps).value.notifying == s.notifying
    decreases |steps|
  {
    if steps != [] {
      var front, step := steps[..|steps| - 1], steps[|steps| - 1];
      QuietKeepsNotifying(s, front);
      QuietStep(RunFrom(s, front).value, step);
      hide Next;
    }
  }

  /** A reload that reads its file and starts ends with that file's settings
      in use: one server, started with them, and no error recorded. */
  lemma ReloadTakesEffect(s: State, file: Config, o: Outcome)
    requires s.loop == Reading && !o.created && o.up
    ensures var a := Next(s, Read(Some(file)));
            a.Some? &&
            var b := Next(a.value, Stop(true));
            b.Some? &&
            var c := Next(b.value, Start(o));
            c.Some? && c.value.loop == Announcing && c.value.alive == [file.(bootstrap := false)] &&
            c.value.current == file.(bootstrap := false) && !c.value.failed && c.value.saved == s.saved
  {
  }

  /** An Apply that is taken and starts ends with its settings in use, and its
      file written unless that fails; only then is an error recorded. */
  lemma ApplyTakesEffect(s: State, effective: Config, file: Config, o: Outcome, written: bool)
    requires s.loop == Woken && s.pending == Some(Apply(effective, file)) && s.made != [] && !o.created && o.up
    ensures var a := Next(s, Take);
            a.Some? && a.value.pending == None &&
            var b := Next(a.value, Stop(true));
            b.Some? &&
            var c := Next(b.value, Start(o));
            c.Some? &&
            var d := Next(c.value, Save(written));
            d.Some? && d.value.loop == Announcing && d.value.alive == [effective.(bootstrap := false)] &&
            d.value.current == effective.(bootstrap := false) && d.value.failed == !written &&
            d.value.saved == s.saved + if written then [Saved(|s.made| - 1, file)] else []
  {
  }

  /** When an error is recorded: a file that cannot be read or written or
      settings that do not start record one; a file written, or a start with
      nothing to write, clears it; nothing else does either. */
  lemma ErrorRecordedIff(s: State, step: Step)
    requires Next(s, step).Some?
    ensures Next(s, step).value.failed <==>
              step == Read(None) || (step.Start? && !step.start.up) || (step.Save? && !step.written) ||
              (s.failed && !(step.Save? && step.written) && !(step.Start? && step.start.up && s.loop.save.None?))
  {
  }
}

/** The service as written: a mailbox object shared by the request handlers,
    and a loop that reassigns `current`. Every run of it, with requesters
    cutting in at every await, is a run of the steps above. */
module Restarting {
  import opened Prelude
  import opened RestartSpec

  /** What the world does at the `k`-th await: which requester steps happen
      meanwhile, and how the awaited operation ends. */
  datatype World = World(
    meanwhile: nat -> seq<Step>,
    shutdown: nat -> bool,
    start: nat -> Outcome,
    read: nat -> Option<Config>,
    clean: nat -> bool,
    written: nat -> bool,
    fine: nat -> bool)

  class Service {
    // Control
    var pending: Option<Request>
    var permit: bool
    var failed: bool
    // the process: servers running, tokens created
    var alive: seq<Config>
    var tokens: nat
    // requesters between storing and notifying
    var notifying: set<nat>
    // awaits so far
    var clock: nat
    const config: Config
    ghost var steps: seq<Step>

    /** The steps so far are a run, and it has led here. */
    ghost predicate At(loop: Loop, current: Config)
      reads this
    {
      RunFrom(Init(config), steps).Some? &&
      var s := RunFrom(Init(config), steps).value;
      s.pending == pending && s.permit == permit && s.failed == failed && s.alive == alive &&
      s.tokens == tokens && s.notifying == notifying && s.loop == loop && s.current == current
    }

    /** The state of the run so far. */
    ghost function Now(): State
      reads this
      requires RunFrom(Init(config), steps).Some?
    {
      RunFrom(Init(config), steps).value
    }

    constructor (config: Config)
      ensures At(Booting, config) && this.config == config && clock == 0
    {
      this.config := config;
      pending, permit, failed, alive, tokens, notifying, clock := None, false, false, [], 0, {}, 0;
      steps := [];
    }

    /** Record one more step of the run. */
    ghost method Did(step: Step)
      requires RunFrom(Init(config), steps).Some? && Next(Now(), step).Some?
      modifies this`steps
      ensures RunFrom(Init(config), steps) == Next(old(Now()), step)
    {
      assert (steps + [step])[..|steps|] == steps;
      steps := steps + [step];
    }

    /** First half of `Control.request`: put the request in the slot. */
    method StoreRequest(who: nat, request: Request, ghost loop: Loop, ghost current: Config)
      requires At(loop, current) && who !in notifying
      modifies this
      ensures At(loop, current) && pending == Some(request) && notifying == old(notifying) + {who}
      ensures clock == old(clock)
    {
      Did(Store(who, request));
      pending := Some(request);
      notifying := notifying + {who};
    }

    /** Second half: store the wake-up permit. */
    method NotifyOne(who: nat, ghost loop: Loop, ghost current: Config)
      requires At(loop, current) && who in notifying
      modifies this
      ensures At(loop, current) && permit && notifying == old(notifying) - {who}
      ensures clock == old(clock)
    {
      Did(Notify(who));
      permit := true;
      notifying := notifying - {who};
    }

    /** An await: requesters run meanwhile. */
    method Await(world: World, ghost loop: Loop, ghost current: Config)
      requires At(loop, current)
      modifies this
      ensures At(loop, current)
    {
      var todo := world.meanwhile(clock);
      var i := 0;
      while i < |todo|
        invariant At(loop, current)
      {
        match todo[i] {
          case Store(who, request) =>
            if who !in notifying { StoreRequest(who, request, loop, current); }
          case Notify(who) =>
            if who in notifying { NotifyOne(who, loop, current); }
          case _ =>
        }
        i := i + 1;
      }
      clock := clock + 1;
    }

    /** `start_with`: perhaps a bootstrap token, then perhaps a server. */
    method StartWith(c: Config, world: World) returns (ghost o: Outcome, up: bool)
      modifies this`alive, this`tokens
      ensures o.up == up && MayHappen(c, o)
      ensures alive == if up then old(alive) + [c] else old(alive)
      ensures tokens == if o.created then old(tokens) + 1 else old(tokens)
    {
      var outcome := world.start(clock);
      var created := c.bootstrap && outcome.created;
      if created { tokens := tokens + 1; }
      up := outcome.up;
      if up { alive := alive + [c]; }
      o := Outcome(up, created);
    }

    /** `Control.take`: look into the slot and empty it. */
    method TakeRequest(ghost current: Config) returns (request: Option<Request>)
      requires At(Woken, current)
      modifies this
      ensures request == old(pending) && pending == None
      ensures At(if request.Some? then Chosen(request.value) else Waiting, current)
    {
      Did(Take);
      request := pending;
      pending := None;
    }

    /** Where the loop goes with a request. */
    static function Chosen(request: Request): Loop {
      match request
      case Reload => Reading
      case Apply(effective, file) => Stopping(effective.Sealed(), Some(file))
    }

    /** Shut down: stop the server and leave the loop. */
    method ShutDown(world: World, ghost current: Config)
      requires At(Waiting, current)
      modifies this
      ensures At(Exited, current)
    {
      Did(Shutdown);
      Await(world, Draining, current);
      Did(Drain);
      alive := [];
    }

    /** Boot the first server; only this start may create the token. */
    method BootServer(world: World) returns (up: bool)
      requires At(Booting, config)
      modifies this
      ensures At(if up then Waiting else Exited, if up then config.Sealed() else config)
    {
      Await(world, Booting, config);
      ghost var o;
      o, up := StartWith(config, world);
      Did(Boot(o));
      if !up { return; }
      up := world.fine(clock);
      Did(Announce(up));
    }

    /** Turn a request into settings to start with and a file to save. A file
        that cannot be read keeps the loop waiting. */
    method Resolve(world: World, request: Request, current: Config) returns (next: Option<Config>, save: Option<Config>)
      requires At(Chosen(request), current)
      modifies this
      ensures At(if next.Some? then Stopping(next.value, save) else Waiting, current)
    {
      match request
      case Reload =>
        var file := world.read(clock);
        Did(Read(file));
        save := None;
        if file.None? {
          failed := true;
          return None, None;
        }
        next := Some(file.value.Sealed());
      case Apply(effective, file) =>
        next, save := Some(effective.Sealed()), Some(file);
    }

    /** Try the new settings. */
    method StartNew(world: World, next: Config, save: Option<Config>, current: Config) returns (up: bool)
      requires At(Starting(next, save), current)
      modifies this
      ensures up && save.Some? ==> At(Saving(next, save.value), current)
      ensures up && save.None? ==> At(Announcing, next)
      ensures !up ==> At(Restoring, current) && failed
    {
      Await(world, Starting(next, save), current);
      ghost var o;
      o, up := StartWith(next, world);
      Did(Start(o));
      if !up {
        failed := true;
      } else if save.None? {
        failed := false;
      }
    }

    /** Start with the previous settings again. */
    method RestoreOld(world: World, current: Config) returns (up: bool)
      requires At(Restoring, current)
      modifies this
      ensures At(if up then Announcing else Exited, current)
    {
      Await(world, Restoring, current);
      ghost var o;
      o, up := StartWith(current, world);
      Did(Restore(o));
    }

    /** Start with the new settings and save them; if that start fails, start
        with the previous ones again. Returns the settings now in use. */
    method Swap(world: World, next: Config, save: Option<Config>, current: Config) returns (now: Config, up: bool)
      requires At(Starting(next, save), current)
      modifies this
      ensures At(if up then Announcing else Exited, now)
    {
      up := StartNew(world, next, save, current);
      if !up {
        now := current;
        up := RestoreOld(world, current);
      } else {
        now := next;
        if save.Some? {
          var written := world.written(clock);
          Did(Save(written));
          failed := !written;
        }
      }
    }

    /** Wait for a permit or the shutdown signal, and look into the slot. */
    method AwaitRequest(world: World, current: Config) returns (request: Option<Request>, over: bool)
      requires At(Waiting, current)
      modifies this
      ensures over ==> request.None? && At(Exited, current)
      ensures !over && request.None? ==> At(Waiting, current)
      ensures request.Some? ==> At(Chosen(request.value), current)
    {
      request, over := None, false;
      Await(world, Waiting, current);
      if world.shutdown(clock) {
        ShutDown(world, current);
        return None, true;
      }
      if permit {
        Did(Wake);
        permit := false;
        Await(world, Woken, current);
        request := TakeRequest(current);
      }
    }

    /** One round of the loop. */
    method Round(world: World, current: Config) returns (now: Config, over: bool)
      requires At(Waiting, current)
      modifies this
      ensures At(if over then Exited else Waiting, now)
    {
      now := current;
      var request;
      request, over := AwaitRequest(world, current);
      if request.None? { return; }
      var next, save := Resolve(world, request.value, current);
      if next.None? { return; }
      now, over := Exchange(world, next.value, save, current);
    }

    /** Stop the old server, start the new one, announce it. */
    method Exchange(world: World, next: Config, save: Option<Config>, current: Config) returns (now: Config, over: bool)
      requires At(Stopping(next, save), current)
      modifies this
      ensures At(if over then Exited else Waiting, now)
    {
      Await(world, Stopping(next, save), current);
      var clean := world.clean(clock);
      Did(Stop(clean));
      alive := [];
      if !clean { return current, true; }
      var up;
      now, up := Swap(world, next, save, current);
      if !up { return now, true; }
      var fine := world.fine(clock);
      Did(Announce(fine));
      over := !fine;
    }

    /** `run`: serve, and restart on request, for at most `rounds` rounds.
        Whatever the world does, this is a run of the protocol, so it keeps
        the protocol's invariant. */
    method Run(world: World, rounds: nat) returns (over: bool)
      requires At(Booting, config)
      modifies this
      ensures RunFrom(Init(config), steps).Some? && Invariant(Now())
      ensures over <==> Now().loop.Exited?
      ensures !over ==> Now().loop.Waiting? && |alive| == 1 && alive[0].Sealed() == Now().current
      ensures |alive| <= 1 && tokens <= 1
    {
      var up := BootServer(world);
      over := !up;
      var current := if up then config.Sealed() else config;
      var n := 0;
      while n < rounds && !over
        invariant At(if over then Exited else Waiting, current)
      {
        current, over := Round(world, current);
        n := n + 1;
      }
      InvariantHolds(config, steps);
    }
  }
}
