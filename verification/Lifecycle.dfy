/** The threads of a client as a step system: the caller of start and stop, the launcher, and the reader. They share
    two flags and the connection pointer, which nothing protects; the joins alone order its uses. Every result about runs
    is one about the code for the runs that are not undefined (`Effects.undefined`). */
module Lifecycle {
  import opened Outcomes

  // ---------------------------------------------------------------- states

  /** The pointer to the connection. An object has an identity, the state of its link and whether it has recorded a
      network error. */
  datatype Pointer = Null | Live(id: nat, up: bool, fault: bool)

  /** Where a thread is in the connection loop. */
  datatype InitPc =
    | TestOld | ResetOld
    | TestNone | Construct
    | Check | Build(calls: nat)
    | Pause | TestStop | TestUp

  datatype CallerPc =
    | Fresh | SpawnLauncher | AssignLauncher | Running
    | SetStop | TestLauncher | JoinLauncher
    | TestActive | Deactivate | JoinReader
    | TestConnection | ResetConnection | Stopped

  datatype LauncherPc =
    | Unborn | Initializing(pc: InitPc) | Activate | SpawnReader | AssignReader | Finished

  datatype ReaderPc =
    | NotStarted | Enter | TestLoop
    | Poll | Reconnecting(pc: InitPc) | TestError | LogError
    | Reading(objects: nat) | Sending(readings: nat, objects: nat)
    | Resting | Returned

  /** What the reader has done by now. */
  datatype Effects = Effects(
    readCount: nat, sentCount: nat,
    /** It used the missing object of a dataset read over a link found down, or converted a degenerate `mag`
        structure. What the model does after that stands for nothing that the code is bound to do. */
    undefined: bool)

  datatype State = State(
    stopOrder: bool, active: bool, connection: Pointer, nextId: nat,
    launcherJoinable: bool, readerJoinable: bool,
    caller: CallerPc, launcher: LauncherPc, reader: ReaderPc,
    /** A null connection was used, a thread that is not joinable was joined, or a joinable one overwritten. */
    crashed: bool,
    effects: Effects)

  const START := State(false, false, Null, 0, false, false, Fresh, Unborn, NotStarted, false, Effects(0, 0, false))

  // ---------------------------------------------------------------- steps

  /** What no thread decides: the caller's wishes, the link, the errors, the sizes, the exceptions, the values. */
  datatype Choice = Choice(start: bool, stop: bool, up: bool, fault: bool, size: nat, throws: bool, degenerate: bool)

  /** How many calls a build makes, how many objects or datasets a poll reads, and how many readings each of them
      gives, at most; and the mode of reading. */
  datatype Bounds = Bounds(calls: nat, objects: nat, readings: nat, byDataset: bool)

  datatype Actor = Caller | Launcher | Reader | Link

  datatype Event = Event(actor: Actor, choice: Choice)

  function AtMost(n: nat, bound: nat): nat {
    if n < bound then n else bound
  }

  function Crash(s: State): State {
    s.(crashed := true)
  }

  /** The shared state after one step of the connection loop, and where the thread is next; `None` outside. */
  datatype InitStepped = InitStepped(state: State, next: Option<InitPc>)

  function InitStep(b: Bounds, s: State, pc: InitPc, c: Choice): InitStepped {
    match pc
    case TestOld => InitStepped(s, Some(if s.connection.Null? then TestNone else ResetOld))
    case ResetOld => InitStepped(s.(connection := Null), Some(TestNone))
    case TestNone => InitStepped(s, Some(if s.connection.Null? then Construct else Check))
    case Construct =>
      InitStepped(s.(connection := Live(s.nextId, c.up, c.fault), nextId := s.nextId + 1), Some(Check))
    case Check =>
      if s.connection.Null? then InitStepped(Crash(s), Some(Pause))
      else InitStepped(s, Some(if s.connection.up then Build(AtMost(c.size, b.calls)) else Pause))
    case Build(calls) =>
      if calls == 0 then InitStepped(s, Some(Pause))
      else if s.connection.Null? then InitStepped(Crash(s), Some(Pause))
      else InitStepped(Called(s, c), Some(Build(calls - 1)))
    case Pause => InitStepped(s, Some(TestStop))
    case TestStop => InitStepped(s, if s.stopOrder then None else Some(TestUp))
    case TestUp =>
      if s.connection.Null? then InitStepped(Crash(s), None)
      else InitStepped(s, if s.connection.up then None else Some(TestOld))
  }

  /** A call over a link that is up overwrites the recorded error. */
  function Called(s: State, c: Choice): State
    requires s.connection.Live?
  {
    if s.connection.up then s.(connection := s.connection.(fault := c.fault)) else s
  }

  function LauncherStep(b: Bounds, s: State, c: Choice): State {
    match s.launcher
    case Unborn => s
    case Initializing(pc) =>
      var r := InitStep(b, s, pc, c);
      r.state.(launcher := if r.next.Some? then Initializing(r.next.value) else Activate)
    case Activate => s.(active := true, launcher := SpawnReader)
    case SpawnReader => s.(reader := Enter, launcher := AssignReader)
    case AssignReader =>
      if s.readerJoinable then Crash(s) else s.(readerJoinable := true, launcher := Finished)
    case Finished => s
  }

  function Unread(effects: Effects, used: bool): Effects {
    effects.(undefined := effects.undefined || used)
  }

  function OneMoreRead(effects: Effects): Effects {
    effects.(readCount := effects.readCount + 1)
  }

  function OneMoreSent(effects: Effects): Effects {
    effects.(sentCount := effects.sentCount + 1)
  }

  /** One step of the loop that reads. Reading over a link that is down gives no object: an object read by itself is
      then skipped, but that of a dataset is used. A conversion may throw, which ends the poll. */
  function ReaderStep(b: Bounds, s: State, c: Choice): State {
    match s.reader
    case NotStarted => s
    case Enter => s.(reader := TestLoop)
    case TestLoop => s.(reader := if s.active then Poll else Returned)
    case Poll =>
      if s.connection.Null? then Crash(s)
      else s.(reader := if s.connection.up then TestError else Reconnecting(TestOld))
    case Reconnecting(pc) =>
      var r := InitStep(b, s, pc, c);
      r.state.(reader := if r.next.Some? then Reconnecting(r.next.value) else Resting)
    case TestError =>
      if s.connection.Null? then Crash(s)
      else s.(reader := if s.connection.fault then LogError else Reading(AtMost(c.size, b.objects)))
    case LogError =>
      if s.connection.Null? then Crash(s) else s.(reader := Resting)
    case Reading(objects) =>
      if objects == 0 then s.(reader := Resting)
      else if s.connection.Null? then Crash(s)
      else if !s.connection.up then s.(effects := Unread(s.effects, b.byDataset), reader := Reading(objects - 1))
      else Called(s, c).(effects := OneMoreRead(s.effects), reader := Sending(AtMost(c.size, b.readings), objects - 1))
    case Sending(readings, objects) =>
      if c.degenerate then s.(effects := s.effects.(undefined := true), reader := Resting)
      else if c.throws then s.(reader := Resting)
      else if readings == 0 then s.(reader := Reading(objects))
      else s.(effects := OneMoreSent(s.effects), reader := Sending(readings - 1, objects))
    case Resting => s.(reader := TestLoop)
    case Returned => s
  }

  /** The caller is in stop, or stop has returned. */
  predicate StopRuns(s: State) {
    && !s.caller.Fresh? && !s.caller.SpawnLauncher? && !s.caller.AssignLauncher? && !s.caller.Running?
  }

  function StartStep(s: State, c: Choice): State {
    match s.caller
    case Fresh => if c.start then s.(caller := SpawnLauncher) else if c.stop then s.(caller := SetStop) else s
    case SpawnLauncher => s.(launcher := Initializing(TestOld), caller := AssignLauncher)
    case AssignLauncher =>
      if s.launcherJoinable then Crash(s) else s.(launcherJoinable := true, caller := Running)
    case Running => if c.stop then s.(caller := SetStop) else s
    case _ => s
  }

  /** A join waits for its thread. */
  function StopStep(s: State, c: Choice): State {
    match s.caller
    case SetStop => s.(stopOrder := true, caller := TestLauncher)
    case TestLauncher => s.(caller := if s.launcherJoinable then JoinLauncher else TestActive)
    case JoinLauncher =>
      if !s.launcherJoinable then Crash(s)
      else if !s.launcher.Finished? then s
      else s.(launcherJoinable := false, caller := TestActive)
    case TestActive => s.(caller := if s.active then Deactivate else TestConnection)
    case Deactivate => s.(active := false, caller := JoinReader)
    case JoinReader =>
      if !s.readerJoinable then Crash(s)
      else if !s.reader.Returned? then s
      else s.(readerJoinable := false, caller := TestConnection)
    case TestConnection => s.(caller := if s.connection.Null? then Stopped else ResetConnection)
    case ResetConnection => s.(connection := Null, caller := Stopped)
    case Stopped => if c.stop then s.(caller := SetStop) else s
    case _ => s
  }

  /** One step of the caller: start once, then stop; or stop without start; stop may be called again. */
  function CallerStep(s: State, c: Choice): State {
    if StopRuns(s) then StopStep(s, c) else StartStep(s, c)
  }

  function LinkStep(s: State, c: Choice): State {
    if s.connection.Null? then s else s.(connection := s.connection.(up := c.up))
  }

  function Step(b: Bounds, s: State, e: Event): State {
    match e.actor
    case Caller => CallerStep(s, e.choice)
    case Launcher => LauncherStep(b, s, e.choice)
    case Reader => ReaderStep(b, s, e.choice)
    case Link => LinkStep(s, e.choice)
  }

  /** The state after a run: a step of some actor at a time, in any order. A thread that waits or has ended stays
      where it is when its turn comes. */
  function Run(b: Bounds, s: State, events: seq<Event>): State
    decreases |events|
  {
    if events == [] then s else Run(b, Step(b, s, events[0]), events[1..])
  }

  // ---------------------------------------------------------------- the invariant

  /** What the connection loop knows of the pointer. */
  predicate InitOk(pc: InitPc, connection: Pointer) {
    match pc
    case TestOld => true
    case TestNone => connection.Null?
    case Construct => connection.Null?
    case _ => connection.Live?
  }

  /** No thread runs or is left to join. */
  predicate Quiet(s: State) {
    && (s.launcher.Unborn? || s.launcher.Finished?) && (s.reader.NotStarted? || s.reader.Returned?)
    && !s.launcherJoinable && !s.readerJoinable && !s.active
  }

  predicate CallerOk(s: State) {
    match s.caller
    case Fresh => s.launcher.Unborn? && !s.launcherJoinable && !s.stopOrder && s.connection.Null?
    case SpawnLauncher => s.launcher.Unborn? && !s.launcherJoinable && !s.stopOrder && s.connection.Null?
    case AssignLauncher => !s.launcher.Unborn? && !s.launcherJoinable && !s.stopOrder
    case Running => !s.launcher.Unborn? && s.launcherJoinable && !s.stopOrder
    case SetStop => StopCalled(s)
    case TestLauncher => s.stopOrder && StopCalled(s)
    case JoinLauncher => s.stopOrder && s.launcherJoinable && !s.launcher.Unborn?
    case TestActive => s.stopOrder && LauncherJoined(s)
    case Deactivate => s.stopOrder && LauncherJoined(s) && s.active
    case JoinReader => s.stopOrder && LauncherJoined(s) && !s.active && s.launcher.Finished? && s.readerJoinable
    case TestConnection => s.stopOrder && Quiet(s)
    case ResetConnection => s.stopOrder && Quiet(s) && s.connection.Live?
    case Stopped => s.stopOrder && Quiet(s) && s.connection.Null?
  }

  /** Before the launcher is joined: never started, started, or stopped before. */
  predicate StopCalled(s: State) {
    || (s.launcher.Unborn? && !s.launcherJoinable && s.connection.Null?)
    || (!s.launcher.Unborn? && s.launcherJoinable)
    || (s.stopOrder && Quiet(s) && s.connection.Null?)
  }

  predicate LauncherJoined(s: State) {
    && (s.launcher.Unborn? || s.launcher.Finished?) && !s.launcherJoinable
    && (s.launcher.Unborn? || !s.active ==> s.caller.JoinReader? || (Quiet(s) && s.connection.Null?))
  }

  /** What the launcher has done by now: the flag is set and the reader made and assigned in that order; after that,
      only stop takes the flag back. */
  predicate LauncherOk(s: State) {
    match s.launcher
    case Unborn => s.reader.NotStarted? && !s.active && !s.readerJoinable
    case Initializing(pc) => s.reader.NotStarted? && !s.active && !s.readerJoinable && InitOk(pc, s.connection)
    case Activate => s.reader.NotStarted? && !s.active && !s.readerJoinable && s.connection.Live?
    case SpawnReader => s.reader.NotStarted? && s.active && !s.readerJoinable && s.connection.Live?
    case AssignReader => !s.reader.NotStarted? && s.active && !s.readerJoinable
    case Finished => !s.reader.NotStarted? && (s.active ==> s.readerJoinable)
                     && (!s.active ==> s.caller.JoinReader? || (s.stopOrder && Quiet(s)))
  }

  predicate ReaderOk(s: State) {
    match s.reader
    case NotStarted => true
    case Reconnecting(pc) => InitOk(pc, s.connection)
    case Returned => !s.active && (s.connection.Null? ==> Quiet(s))
    case _ => s.connection.Live?
  }

  predicate Invariant(s: State) {
    !s.crashed && CallerOk(s) && LauncherOk(s) && ReaderOk(s)
  }

  /** A step of the connection loop changes the pointer alone, uses no null pointer, and leaves an object behind. */
  lemma InitKeeps(b: Bounds, s: State, pc: InitPc, c: Choice)
    requires !s.crashed && InitOk(pc, s.connection)
    ensures var r := InitStep(b, s, pc, c);
            && r.state == s.(connection := r.state.connection, nextId := r.state.nextId)
            && (if r.next.Some? then InitOk(r.next.value, r.state.connection) else r.state.connection.Live?)
  {
  }

  lemma LauncherKeeps(b: Bounds, s: State, c: Choice)
    requires Invariant(s)
    ensures Invariant(LauncherStep(b, s, c))
  {
    hide InitStep, InitOk;
    if s.launcher.Initializing? {
      InitKeeps(b, s, s.launcher.pc, c);
    }
  }

  lemma ReconnectionKeeps(b: Bounds, s: State, c: Choice)
    requires Invariant(s) && s.reader.Reconnecting?
    ensures Invariant(ReaderStep(b, s, c))
  {
    hide InitStep;
    InitKeeps(b, s, s.reader.pc, c);
  }

  lemma ReadingKeeps(b: Bounds, s: State, c: Choice)
    requires Invariant(s) && (s.reader.Reading? || s.reader.Sending?)
    ensures Invariant(ReaderStep(b, s, c))
  {
    hide AtMost, Unread, OneMoreRead, OneMoreSent;
  }

  lemma LoopingKeeps(b: Bounds, s: State, c: Choice)
    requires Invariant(s) && !s.reader.Reconnecting? && !s.reader.Reading? && !s.reader.Sending?
    ensures Invariant(ReaderStep(b, s, c))
  {
    hide AtMost, InitStep;
  }

  lemma ReaderKeeps(b: Bounds, s: State, c: Choice)
    requires Invariant(s)
    ensures Invariant(ReaderStep(b, s, c))
  {
    hide Invariant, ReaderStep;
    if s.reader.Reconnecting? {
      ReconnectionKeeps(b, s, c);
    } else if s.reader.Reading? || s.reader.Sending? {
      ReadingKeeps(b, s, c);
    } else {
      LoopingKeeps(b, s, c);
    }
  }

  lemma StartKeeps(s: State, c: Choice)
    requires Invariant(s) && !StopRuns(s)
    ensures Invariant(StartStep(s, c))
  {
  }

  lemma StopKeeps(s: State, c: Choice)
    requires Invariant(s) && StopRuns(s)
    ensures Invariant(StopStep(s, c))
  {
  }

  lemma CallerKeeps(s: State, c: Choice)
    requires Invariant(s)
    ensures Invariant(CallerStep(s, c))
  {
    hide StartStep, StopStep, Invariant;
    if StopRuns(s) {
      StopKeeps(s, c);
    } else {
      StartKeeps(s, c);
    }
  }

  lemma LinkKeeps(s: State, c: Choice)
    requires Invariant(s)
    ensures Invariant(LinkStep(s, c))
  {
  }

  lemma StepKeeps(b: Bounds, s: State, e: Event)
    requires Invariant(s)
    ensures Invariant(Step(b, s, e))
  {
    hide Invariant, CallerStep, LauncherStep, ReaderStep, LinkStep;
    match e.actor
    case Caller => CallerKeeps(s, e.choice);
    case Launcher => LauncherKeeps(b, s, e.choice);
    case Reader => ReaderKeeps(b, s, e.choice);
    case Link => LinkKeeps(s, e.choice);
  }

  /** The invariant holds in every run. */
  lemma {:induction false} RunKeeps(b: Bounds, s: State, events: seq<Event>)
    requires Invariant(s)
    ensures Invariant(Run(b, s, events))
    decreases |events|
  {
    hide Invariant, Step;
    if events != [] {
      StepKeeps(b, s, events[0]);
      RunKeeps(b, Step(b, s, events[0]), events[1..]);
    }
  }

  /** In no run is a null connection used, a thread joined that is not joinable, or a joinable one overwritten. */
  lemma NeverCrashes(b: Bounds, events: seq<Event>)
    ensures !Run(b, START, events).crashed
  {
    RunKeeps(b, START, events);
  }

  // ---------------------------------------------------------------- undefined behaviour

  /** This step uses the missing object of a dataset, or converts a degenerate `mag` structure. */
  predicate GoesUndefined(b: Bounds, s: State, e: Event) {
    e.actor.Reader? &&
    (|| (s.reader.Reading? && s.reader.objects > 0 && s.connection.Live? && !s.connection.up && b.byDataset)
     || (s.reader.Sending? && e.choice.degenerate))
  }

  lemma InitKeepsDefined(b: Bounds, s: State, pc: InitPc, c: Choice)
    ensures InitStep(b, s, pc, c).state.effects.undefined == s.effects.undefined
  {
  }

  lemma KeepDefined(effects: Effects)
    ensures OneMoreRead(effects).undefined == effects.undefined == OneMoreSent(effects).undefined
  {
  }

  lemma ReaderGoesUndefined(b: Bounds, s: State, c: Choice)
    ensures ReaderStep(b, s, c).effects.undefined == (s.effects.undefined || GoesUndefined(b, s, Event(Reader, c)))
  {
    hide InitStep, AtMost, OneMoreRead, OneMoreSent;
    KeepDefined(s.effects);
    if s.reader.Reconnecting? {
      InitKeepsDefined(b, s, s.reader.pc, c);
    }
  }

  lemma StopKeepsDefined(s: State, c: Choice)
    ensures StopStep(s, c).effects.undefined == s.effects.undefined
  {
  }

  lemma StepGoesUndefined(b: Bounds, s: State, e: Event)
    ensures Step(b, s, e).effects.undefined == (s.effects.undefined || GoesUndefined(b, s, e))
  {
    hide StopStep, ReaderStep, InitStep;
    match e.actor
    case Caller => StopKeepsDefined(s, e.choice);
    case Launcher =>
      if s.launcher.Initializing? {
        InitKeepsDefined(b, s, s.launcher.pc, e.choice);
      }
    case Reader =>
      assert e == Event(Reader, e.choice);
      ReaderGoesUndefined(b, s, e.choice);
    case Link =>
  }

  lemma {:induction false} RunOneMore(b: Bounds, s: State, events: seq<Event>, e: Event)
    ensures Run(b, s, events + [e]) == Step(b, Run(b, s, events), e)
    decreases |events|
  {
    hide Step;
    if events == [] {
      assert [] + [e] == [e] && [e][1..] == [];
    } else {
      assert (events + [e])[1..] == events[1..] + [e];
      RunOneMore(b, Step(b, s, events[0]), events[1..], e);
    }
  }

  /** The behaviour of a run is undefined exactly if one of its steps uses the missing object of a dataset, or converts
      a degenerate `mag` structure. */
  lemma {:induction false} UndefinedExactly(b: Bounds, events: seq<Event>)
    ensures Run(b, START, events).effects.undefined <==>
              exists i :: 0 <= i < |events| && GoesUndefined(b, Run(b, START, events[..i]), events[i])
    decreases |events|
  {
    hide Step, GoesUndefined;
    if events != [] {
      var n := |events| - 1;
      var before, e := events[..n], events[n];
      assert events == before + [e];
      RunOneMore(b, START, before, e);
      StepGoesUndefined(b, Run(b, START, before), e);
      UndefinedExactly(b, before);
      assert forall i :: 0 <= i < n ==> before[..i] == events[..i] && before[i] == events[i];
    }
  }

  /** When data objects are read one by one, only a degenerate `mag` structure makes a run undefined. */
  lemma ReadingObjectsIsDefined(b: Bounds, events: seq<Event>)
    requires !b.byDataset && forall i :: 0 <= i < |events| ==> !events[i].choice.degenerate
    ensures !Run(b, START, events).effects.undefined
  {
    hide Run, Step;
    UndefinedExactly(b, events);
  }

  lemma Then(b: Bounds, events: seq<Event>, actor: Actor, c: Choice) returns (more: seq<Event>)
    ensures more == events + [Event(actor, c)] && Run(b, START, more) == Step(b, Run(b, START, events), Event(actor, c))
  {
    more := events + [Event(actor, c)];
    RunOneMore(b, START, events, Event(actor, c));
  }

  lemma OpeningRun(b: Bounds) returns (events: seq<Event>)
    ensures Run(b, START, events) == START.(caller := AssignLauncher, launcher := Initializing(Construct))
  {
    var c := Choice(true, false, true, false, 0, false, false);
    assert Run(b, START, []) == START;
    hide Run;
    events := Then(b, [], Caller, c);
    events := Then(b, events, Caller, c);
    events := Then(b, events, Launcher, c);
    events := Then(b, events, Launcher, c);
  }

  /** The launcher connects at once ... */
  lemma ConnectedRun(b: Bounds) returns (events: seq<Event>)
    ensures Run(b, START, events)
              == START.(connection := Live(0, true, false), nextId := 1, caller := AssignLauncher, launcher := Activate)
  {
    var c := Choice(true, false, true, false, 0, false, false);
    hide Run;
    events := OpeningRun(b);
    events := Then(b, events, Launcher, c);
    events := Then(b, events, Launcher, c);
    events := Then(b, events, Launcher, c);
    events := Then(b, events, Launcher, c);
    events := Then(b, events, Launcher, c);
    events := Then(b, events, Launcher, c);
  }

  /** ... and makes the reader, which begins a poll. */
  lemma PollingRun(b: Bounds) returns (events: seq<Event>)
    ensures Run(b, START, events)
              == START.(connection := Live(0, true, false), nextId := 1, active := true, caller := AssignLauncher,
                        launcher := AssignReader, reader := TestError)
  {
    hide Run;
    var c := Choice(false, false, true, false, 0, false, false);
    events := ConnectedRun(b);
    events := Then(b, events, Launcher, c);
    events := Then(b, events, Launcher, c);
    events := Then(b, events, Reader, c);
    events := Then(b, events, Reader, c);
    events := Then(b, events, Reader, c);
  }

  /** Such runs exist in dataset mode: the link drops between the test at the start of a poll and the read. */
  lemma MissingObjectIsUsed(b: Bounds) returns (events: seq<Event>)
    requires b.byDataset && b.objects > 0
    ensures Run(b, START, events).effects.undefined
  {
    hide Run;
    var c := Choice(false, false, false, false, 1, false, false);
    events := PollingRun(b);
    events := Then(b, events, Reader, c);
    events := Then(b, events, Link, c);
    events := Then(b, events, Reader, c);
  }

  // ---------------------------------------------------------------- who uses the connection

  predicate InitUses(pc: InitPc) {
    !pc.Pause? && !pc.TestStop?
  }

  /** The next step of this thread reads or writes the pointer or its object. */
  predicate Uses(s: State, a: Actor) {
    match a
    case Caller => s.caller.TestConnection? || s.caller.ResetConnection?
    case Launcher => s.launcher.Initializing? && InitUses(s.launcher.pc)
    case Reader =>
      || s.reader.Enter? || s.reader.Poll? || s.reader.TestError? || s.reader.LogError? || s.reader.Reading?
      || (s.reader.Reconnecting? && InitUses(s.reader.pc))
    case Link => false
  }

  /** The states agree on all but the connection. */
  predicate AgreeElsewhere(s: State, t: State) {
    && s.stopOrder == t.stopOrder && s.active == t.active && s.nextId == t.nextId
    && s.launcherJoinable == t.launcherJoinable && s.readerJoinable == t.readerJoinable
    && s.caller == t.caller && s.launcher == t.launcher && s.reader == t.reader
    && s.crashed == t.crashed && s.effects == t.effects
  }

  lemma ChoosingIgnores(s: State, t: State, c: Choice)
    requires AgreeElsewhere(s, t) && (s.caller.Fresh? || s.caller.Running?)
    ensures StartStep(s, c).connection == s.connection && AgreeElsewhere(StartStep(s, c), StartStep(t, c))
  {
  }

  lemma StartingIgnores(s: State, t: State, c: Choice)
    requires AgreeElsewhere(s, t) && (s.caller.SpawnLauncher? || s.caller.AssignLauncher?)
    ensures StartStep(s, c).connection == s.connection && AgreeElsewhere(StartStep(s, c), StartStep(t, c))
  {
  }

  lemma JoinLauncherIgnores(s: State, t: State, c: Choice)
    requires AgreeElsewhere(s, t)
    requires s.caller.SetStop? || s.caller.TestLauncher? || s.caller.JoinLauncher? || s.caller.Stopped?
    ensures StopStep(s, c).connection == s.connection && AgreeElsewhere(StopStep(s, c), StopStep(t, c))
  {
  }

  lemma StopReadingIgnores(s: State, t: State, c: Choice)
    requires AgreeElsewhere(s, t)
    requires s.caller.TestActive? || s.caller.Deactivate? || s.caller.JoinReader?
    ensures StopStep(s, c).connection == s.connection && AgreeElsewhere(StopStep(s, c), StopStep(t, c))
  {
  }

  lemma CallerIgnores(s: State, t: State, c: Choice)
    requires AgreeElsewhere(s, t) && !Uses(s, Caller)
    ensures CallerStep(s, c).connection == s.connection && AgreeElsewhere(CallerStep(s, c), CallerStep(t, c))
  {
    assert s.caller == t.caller;
    hide StartStep, StopStep, AgreeElsewhere;
    if s.caller.Fresh? || s.caller.Running? {
      ChoosingIgnores(s, t, c);
    } else if s.caller.SpawnLauncher? || s.caller.AssignLauncher? {
      StartingIgnores(s, t, c);
    } else if s.caller.TestActive? || s.caller.Deactivate? || s.caller.JoinReader? {
      StopReadingIgnores(s, t, c);
    } else {
      JoinLauncherIgnores(s, t, c);
    }
  }

  lemma InitIgnores(b: Bounds, s: State, t: State, pc: InitPc, c: Choice)
    requires AgreeElsewhere(s, t) && !InitUses(pc)
    ensures InitStep(b, s, pc, c).state == s && InitStep(b, t, pc, c).state == t
    ensures InitStep(b, s, pc, c).next == InitStep(b, t, pc, c).next
  {
  }

  lemma LauncherIgnores(b: Bounds, s: State, t: State, c: Choice)
    requires AgreeElsewhere(s, t) && !Uses(s, Launcher)
    ensures LauncherStep(b, s, c).connection == s.connection && AgreeElsewhere(LauncherStep(b, s, c), LauncherStep(b, t, c))
  {
    hide InitStep;
    if s.launcher.Initializing? {
      InitIgnores(b, s, t, s.launcher.pc, c);
    }
  }

  lemma ReaderIgnores(b: Bounds, s: State, t: State, c: Choice)
    requires AgreeElsewhere(s, t) && !Uses(s, Reader)
    ensures ReaderStep(b, s, c).connection == s.connection && AgreeElsewhere(ReaderStep(b, s, c), ReaderStep(b, t, c))
  {
    hide InitStep;
    if s.reader.Reconnecting? {
      InitIgnores(b, s, t, s.reader.pc, c);
    }
  }

  /** A step that does not use the connection neither changes it nor depends on it. */
  lemma OtherStepsIgnoreConnection(b: Bounds, s: State, t: State, e: Event)
    requires AgreeElsewhere(s, t) && !Uses(s, e.actor) && !e.actor.Link?
    ensures Step(b, s, e).connection == s.connection
    ensures AgreeElsewhere(Step(b, s, e), Step(b, t, e))
  {
    hide CallerStep, LauncherStep, ReaderStep, Uses, AgreeElsewhere;
    if e.actor.Caller? {
      CallerIgnores(s, t, e.choice);
    } else if e.actor.Launcher? {
      LauncherIgnores(b, s, t, e.choice);
    } else {
      ReaderIgnores(b, s, t, e.choice);
    }
  }

  /** At most one thread uses the connection at a time. */
  lemma OneUser(b: Bounds, events: seq<Event>, x: Actor, y: Actor)
    requires Uses(Run(b, START, events), x) && Uses(Run(b, START, events), y)
    ensures x == y
  {
    RunKeeps(b, START, events);
  }

  /** Whose the connection is: the launcher's until the reader starts, the reader's until the threads are joined, and
      then the caller's. */
  function Owner(s: State): nat {
    if s.stopOrder && Quiet(s) then 2 else if s.reader.NotStarted? then 0 else 1
  }

  /** Only its owner uses the connection, and it is handed over in that order, never back. */
  lemma HandOver(b: Bounds, s: State, e: Event)
    requires Invariant(s)
    ensures Uses(s, Launcher) ==> Owner(s) == 0
    ensures Uses(s, Reader) ==> Owner(s) == 1
    ensures Uses(s, Caller) ==> Owner(s) == 2
    ensures Owner(s) <= Owner(Step(b, s, e))
  {
    hide InitStep;
    if e.actor.Launcher? && s.launcher.Initializing? {
      InitKeeps(b, s, s.launcher.pc, e.choice);
    } else if e.actor.Reader? && s.reader.Reconnecting? {
      InitKeeps(b, s, s.reader.pc, e.choice);
    }
  }

  /** Over whole runs: once handed over, the connection never goes back to an earlier owner. */
  lemma {:induction false} HandOverIsOneWay(b: Bounds, s: State, events: seq<Event>)
    requires Invariant(s)
    ensures Owner(s) <= Owner(Run(b, s, events))
    decreases |events|
  {
    hide Invariant, Step, Owner;
    if events != [] {
      StepKeeps(b, s, events[0]);
      HandOver(b, s, events[0]);
      HandOverIsOneWay(b, Step(b, s, events[0]), events[1..]);
    }
  }

  // ---------------------------------------------------------------- connecting and reading do happen

  lemma InitKeepsIds(b: Bounds, s: State, pc: InitPc, c: Choice)
    ensures s.nextId <= InitStep(b, s, pc, c).state.nextId
  {
  }

  lemma StopKeepsIds(s: State, c: Choice)
    ensures StopStep(s, c).nextId == s.nextId
  {
  }

  lemma ReaderKeepsIds(b: Bounds, s: State, c: Choice)
    ensures s.nextId <= ReaderStep(b, s, c).nextId
  {
    hide InitStep, AtMost;
    if s.reader.Reconnecting? {
      InitKeepsIds(b, s, s.reader.pc, c);
    }
  }

  lemma StepKeepsIds(b: Bounds, s: State, e: Event)
    ensures s.nextId <= Step(b, s, e).nextId
  {
    hide StopStep, ReaderStep, InitStep;
    match e.actor
    case Caller => StopKeepsIds(s, e.choice);
    case Launcher =>
      if s.launcher.Initializing? {
        InitKeepsIds(b, s, s.launcher.pc, e.choice);
      }
    case Reader => ReaderKeepsIds(b, s, e.choice);
    case Link =>
  }

  /** Where the connection loop goes: it is left exactly at its two tests, with the stop order set or the link up; a
      link that is down at the second test begins another iteration; the name trees are built exactly over a link that is
      up right after the connection was made; and a new connection has the state and the error that opening it gives. */
  lemma LoopGoesOn(b: Bounds, s: State, pc: InitPc, c: Choice)
    requires InitOk(pc, s.connection)
    ensures var next := InitStep(b, s, pc, c).next;
            && (next.None? <==> (pc.TestStop? && s.stopOrder) || (pc.TestUp? && s.connection.up))
            && (pc.TestUp? && !s.connection.up ==> next == Some(TestOld))
            && (pc.TestStop? && !s.stopOrder ==> next == Some(TestUp))
            && (pc.Check? ==> next == Some(if s.connection.up then Build(AtMost(c.size, b.calls)) else Pause))
    ensures pc.Construct? ==> InitStep(b, s, pc, c).state.connection == Live(s.nextId, c.up, c.fault)
    ensures pc.Build? && pc.calls > 0 ==>
              && InitStep(b, s, pc, c).next == Some(Build(pc.calls - 1))
              && InitStep(b, s, pc, c).state.connection
                   == if s.connection.up then s.connection.(fault := c.fault) else s.connection
  {
  }

  /** In every run: the launcher and the reader leave the connection loop only with the stop order set or the link up. */
  lemma LoopIsLeft(b: Bounds, events: seq<Event>, e: Event)
    ensures var s, t := Run(b, START, events), Run(b, START, events + [e]);
            (s.reader.Reconnecting? && t.reader.Resting?) || (s.launcher.Initializing? && t.launcher.Activate?) ==>
              s.stopOrder || (s.connection.Live? && s.connection.up)
  {
    RunKeeps(b, START, events);
    RunOneMore(b, START, events, e);
    var s := Run(b, START, events);
    StepLeaves(b, s, e);
  }

  lemma StepLeaves(b: Bounds, s: State, e: Event)
    requires Invariant(s)
    ensures var t := Step(b, s, e);
            (s.reader.Reconnecting? && t.reader.Resting?) || (s.launcher.Initializing? && t.launcher.Activate?) ==>
              s.stopOrder || (s.connection.Live? && s.connection.up)
  {
    hide InitStep, CallerStep;
    if e.actor.Caller? {
      CallerMoves(s, e.choice);
    } else if e.actor.Launcher? && s.launcher.Initializing? {
      InitKeeps(b, s, s.launcher.pc, e.choice);
      LoopGoesOn(b, s, s.launcher.pc, e.choice);
    } else if e.actor.Reader? && s.reader.Reconnecting? {
      InitKeeps(b, s, s.reader.pc, e.choice);
      LoopGoesOn(b, s, s.reader.pc, e.choice);
    }
  }

  /** A call of start makes the launcher, which begins to connect; then, or without it, a call of stop is obeyed. */
  lemma CallsAreObeyed(s: State, c: Choice)
    ensures s.caller.Fresh? && c.start ==> CallerStep(s, c) == s.(caller := SpawnLauncher)
    ensures s.caller.SpawnLauncher? ==> CallerStep(s, c) == s.(launcher := Initializing(TestOld), caller := AssignLauncher)
    ensures s.caller.AssignLauncher? && !s.launcherJoinable ==>
              CallerStep(s, c) == s.(launcherJoinable := true, caller := Running)
    ensures c.stop && ((s.caller.Fresh? && !c.start) || s.caller.Running? || s.caller.Stopped?) ==>
              CallerStep(s, c) == s.(caller := SetStop)
    ensures s.caller.SetStop? ==> CallerStep(s, c) == s.(stopOrder := true, caller := TestLauncher)
  {
  }

  lemma CallerMoves(s: State, c: Choice)
    ensures CallerStep(s, c).reader == s.reader
    ensures CallerStep(s, c).launcher == if s.caller.SpawnLauncher? then Initializing(TestOld) else s.launcher
  {
    hide StopStep;
    StopMoves(s, c);
  }

  lemma StopMoves(s: State, c: Choice)
    ensures StopStep(s, c).reader == s.reader && StopStep(s, c).launcher == s.launcher
  {
  }

  /** The thread is in the part of the loop that makes the new connection. */
  predicate IsConnecting(pc: InitPc) {
    pc.TestOld? || pc.ResetOld? || pc.TestNone? || pc.Construct?
  }

  /** A connection was made since there had been `n` of them, or the reader is about to make one. */
  predicate Reconnects(s: State, n: nat) {
    s.nextId > n || (s.nextId == n && s.reader.Reconnecting? && IsConnecting(s.reader.pc))
  }

  lemma InitConnects(b: Bounds, s: State, pc: InitPc, c: Choice)
    requires InitOk(pc, s.connection)
    ensures var r := InitStep(b, s, pc, c);
            && s.nextId <= r.state.nextId
            && (IsConnecting(pc) ==> r.state.nextId > s.nextId || (r.next.Some? && IsConnecting(r.next.value)))
  {
  }

  lemma ReconnectsStep(b: Bounds, s: State, n: nat, e: Event)
    requires Invariant(s) && Reconnects(s, n)
    ensures Reconnects(Step(b, s, e), n)
  {
    hide InitStep, CallerStep, IsConnecting;
    StepKeepsIds(b, s, e);
    if e.actor.Caller? {
      CallerMoves(s, e.choice);
    } else if e.actor.Reader? && s.reader.Reconnecting? {
      InitConnects(b, s, s.reader.pc, e.choice);
    }
  }

  lemma {:induction false} ReconnectsRun(b: Bounds, s: State, n: nat, events: seq<Event>)
    requires Invariant(s) && Reconnects(s, n)
    ensures Reconnects(Run(b, s, events), n)
    decreases |events|
  {
    hide Invariant, Step, Reconnects;
    if events != [] {
      StepKeeps(b, s, events[0]);
      ReconnectsStep(b, s, n, events[0]);
      ReconnectsRun(b, Step(b, s, events[0]), n, events[1..]);
    }
  }

  /** In every run: after a poll, or a test at the end of the connection loop, that finds the link down, a new
      connection has been made by the time the reader rests. */
  lemma DownLinkReconnects(b: Bounds, events: seq<Event>, c: Choice, more: seq<Event>)
    requires var s := Run(b, START, events);
             && (s.reader.Poll? || s.reader == Reconnecting(TestUp)) && s.connection.Live? && !s.connection.up
    ensures var s := Run(b, START, events);
            var t := Run(b, Step(b, s, Event(Reader, c)), more);
            t.reader.Resting? ==> t.nextId > s.nextId
  {
    RunKeeps(b, START, events);
    var s := Run(b, START, events);
    var s' := Step(b, s, Event(Reader, c));
    StepKeeps(b, s, Event(Reader, c));
    assert Reconnects(s', s.nextId);
    ReconnectsRun(b, s', s.nextId, more);
  }

  /** The launcher has made a connection, or is about to. */
  predicate LauncherConnects(s: State) {
    s.launcher.Unborn? || s.nextId > 0 || (s.launcher.Initializing? && IsConnecting(s.launcher.pc))
  }

  /** In every run: a launcher that has left the connection loop has made a connection. */
  lemma {:induction false} LaunchConnects(b: Bounds, s: State, events: seq<Event>)
    requires Invariant(s) && LauncherConnects(s)
    ensures LauncherConnects(Run(b, s, events))
    decreases |events|
  {
    if events != [] {
      LaunchConnectsStep(b, s, events[0]);
      hide Invariant, Step, LauncherConnects;
      StepKeeps(b, s, events[0]);
      LaunchConnects(b, Step(b, s, events[0]), events[1..]);
    }
  }

  lemma LaunchConnectsStep(b: Bounds, s: State, e: Event)
    requires Invariant(s) && LauncherConnects(s)
    ensures LauncherConnects(Step(b, s, e))
  {
    StepKeepsIds(b, s, e);
    hide InitStep, CallerStep, ReaderStep;
    if e.actor.Caller? {
      CallerMoves(s, e.choice);
    } else if e.actor.Launcher? && s.launcher.Initializing? {
      InitConnects(b, s, s.launcher.pc, e.choice);
    } else if e.actor.Reader? {
      ReaderLeavesThreads(b, s, e.choice);
    }
  }

  /** Where the reader goes: it polls and rests in turn as long as reading is activated; a link that is up and no recorded
      error lead to the reads; a read over a link that is up records its error code and leads to the readings; one over a
      link that is down is passed over; a throw ends the poll. */
  lemma PollGoesOn(b: Bounds, s: State, c: Choice)
    requires s.connection.Live?
    ensures var t := ReaderStep(b, s, c);
            && (s.reader.Enter? || s.reader.Resting? ==> t.reader == TestLoop)
            && (s.reader.TestLoop? ==> t.reader == if s.active then Poll else Returned)
            && (s.reader.Poll? ==> t.reader == if s.connection.up then TestError else Reconnecting(TestOld))
            && (s.reader.TestError? ==>
                  t.reader == if s.connection.fault then LogError else Reading(AtMost(c.size, b.objects)))
            && (s.reader.LogError? ==> t.reader == Resting)
            && (s.reader.Sending? && (c.throws || c.degenerate) ==> t.reader == Resting)
    ensures var t := ReaderStep(b, s, c);
            s.reader.Reading? && s.reader.objects > 0 ==>
              if s.connection.up
              then && t.reader == Sending(AtMost(c.size, b.readings), s.reader.objects - 1)
                   && t.connection == s.connection.(fault := c.fault)
                   && t.effects == s.effects.(readCount := s.effects.readCount + 1)
              else && t.reader == Reading(s.reader.objects - 1) && t.connection == s.connection
                   && t.effects == s.effects.(undefined := s.effects.undefined || b.byDataset)
  {
    hide InitStep;
  }

  predicate Smooth(events: seq<Event>) {
    LinkStaysUp(events) && forall i :: 0 <= i < |events| ==> !events[i].choice.throws && !events[i].choice.degenerate
  }

  /** The link stays up during these steps. */
  predicate LinkStaysUp(events: seq<Event>) {
    forall i :: 0 <= i < |events| && events[i].actor.Link? ==> events[i].choice.up
  }

  predicate IsUp(connection: Pointer) {
    connection.Live? && connection.up
  }

  /** `toRead` reads and `toSend` readings will have been made when the reader rests. */
  predicate OnTheWay(s: State, toRead: nat, toSend: nat) {
    match s.reader
    case Reading(objects) =>
      && s.effects.sentCount >= toSend
      && (s.effects.readCount >= toRead || (IsUp(s.connection) && s.effects.readCount + objects >= toRead))
    case Sending(readings, objects) =>
      && s.effects.sentCount + readings >= toSend
      && (s.effects.readCount >= toRead || (IsUp(s.connection) && s.effects.readCount + objects >= toRead))
    case _ => s.effects.sentCount >= toSend && s.effects.readCount >= toRead
  }

  lemma OnTheWayReader(b: Bounds, s: State, c: Choice, toRead: nat, toSend: nat)
    requires Invariant(s) && (s.reader.Reading? || s.reader.Sending? ==> s.connection.Live?) && OnTheWay(s, toRead, toSend)
    requires !c.throws && !c.degenerate
    ensures OnTheWay(ReaderStep(b, s, c), toRead, toSend)
  {
    hide InitStep, CallerOk, LauncherOk;
    if s.reader.Reconnecting? {
      InitKeeps(b, s, s.reader.pc, c);
    }
  }

  lemma OnTheWayOther(b: Bounds, s: State, e: Event, toRead: nat, toSend: nat)
    requires Invariant(s) && (s.reader.Reading? || s.reader.Sending? ==> s.connection.Live?) && OnTheWay(s, toRead, toSend)
    requires !e.actor.Reader? && (e.actor.Link? ==> e.choice.up)
    ensures OnTheWay(Step(b, s, e), toRead, toSend)
  {
    hide InitStep, ReaderStep;
    if e.actor.Launcher? && s.launcher.Initializing? {
      InitKeeps(b, s, s.launcher.pc, e.choice);
    }
  }

  lemma {:induction false} OnTheWayRun(b: Bounds, s: State, toRead: nat, toSend: nat, events: seq<Event>)
    requires Invariant(s) && (s.reader.Reading? || s.reader.Sending? ==> s.connection.Live?)
    requires OnTheWay(s, toRead, toSend) && Smooth(events)
    ensures OnTheWay(Run(b, s, events), toRead, toSend)
    decreases |events|
  {
    if events != [] {
      var s' := Step(b, s, events[0]);
      StepKeeps(b, s, events[0]);
      assert s'.reader.Reading? || s'.reader.Sending? ==> s'.connection.Live? by { hide Step; }
      hide Step, Invariant, OnTheWay;
      if events[0].actor.Reader? {
        ReaderStepIs(b, s, events[0]);
        OnTheWayReader(b, s, events[0].choice, toRead, toSend);
      } else {
        OnTheWayOther(b, s, events[0], toRead, toSend);
      }
      OnTheWayRun(b, s', toRead, toSend, events[1..]);
    }
  }

  lemma ReaderStepIs(b: Bounds, s: State, e: Event)
    requires e.actor.Reader?
    ensures Step(b, s, e) == ReaderStep(b, s, e.choice)
  {
    hide ReaderStep;
  }

  /** In every run: while the link stays up and no conversion throws, a poll reads all its objects, and sends all the
      readings of each, by the time the reader rests. */
  lemma PollReadsAll(b: Bounds, events: seq<Event>, more: seq<Event>)
    requires var s := Run(b, START, events);
             (s.reader.Reading? || s.reader.Sending?) && s.connection.Live? && s.connection.up
    requires Smooth(more)
    ensures var s := Run(b, START, events);
            var t := Run(b, s, more);
            t.reader.Resting? ==>
              && t.effects.readCount >= s.effects.readCount + s.reader.objects
              && (s.reader.Sending? ==> t.effects.sentCount >= s.effects.sentCount + s.reader.readings)
  {
    RunKeeps(b, START, events);
    var s := Run(b, START, events);
    OnTheWayRun(b, s, s.effects.readCount + s.reader.objects,
                s.effects.sentCount + if s.reader.Sending? then s.reader.readings else 0, more);
  }

  // ---------------------------------------------------------------- stop

  /** When stop tests whether reading is activated, it is exactly if there is a reader to join; no reader runs
      otherwise. */
  lemma ReaderIsJoined(b: Bounds, events: seq<Event>)
    ensures var s := Run(b, START, events);
            s.caller.TestActive? ==>
              && (s.active <==> s.readerJoinable)
              && (!s.active ==> s.reader.NotStarted? || s.reader.Returned?)
  {
    RunKeeps(b, START, events);
  }

  /** Stopped: both threads are joined or were never started, and there is no connection. */
  predicate Settled(s: State) {
    && s.stopOrder && Quiet(s) && s.connection.Null? && !s.crashed
    && (s.caller.Stopped? || s.caller.SetStop? || s.caller.TestLauncher? || s.caller.TestActive? || s.caller.TestConnection?)
  }

  /** Whatever happens after stop has returned, another stop included, changes nothing; so nothing is read or sent. */
  lemma {:induction false} NothingAfterStop(b: Bounds, s: State, events: seq<Event>)
    requires Settled(s)
    ensures Run(b, s, events) == s.(caller := Run(b, s, events).caller) && Settled(Run(b, s, events))
    decreases |events|
  {
    if events != [] {
      var s' := Step(b, s, events[0]);
      assert Settled(s') && s' == s.(caller := s'.caller);
      NothingAfterStop(b, s', events[1..]);
    }
  }

  /** In every run, once stop has returned: the threads are joined, the connection is gone, and this is for good. */
  lemma StopIsFinal(b: Bounds, events: seq<Event>, more: seq<Event>)
    requires Run(b, START, events).caller.Stopped?
    ensures var s := Run(b, START, events);
            && Quiet(s) && s.connection.Null? && !s.active && !s.launcherJoinable && !s.readerJoinable
            && (s.launcher.Unborn? || s.launcher.Finished?) && (s.reader.NotStarted? || s.reader.Returned?)
            && Run(b, s, more) == s.(caller := Run(b, s, more).caller)
  {
    RunKeeps(b, START, events);
    NothingAfterStop(b, Run(b, START, events), more);
  }

  // ---------------------------------------------------------------- stop ends

  /** The steps that the connection loop has left once the stop order is set. */
  function InitLeft(b: Bounds, pc: InitPc): nat {
    match pc
    case TestUp => b.calls + 9
    case TestOld => b.calls + 8
    case ResetOld => b.calls + 7
    case TestNone => b.calls + 6
    case Construct => b.calls + 5
    case Check => b.calls + 4
    case Build(calls) => calls + 3
    case Pause => 2
    case TestStop => 1
  }

  /** Once the stop order is set, the connection loop ends: no second iteration begins, unless the thread was about to
      test the link, and then no third one. */
  lemma InitEnds(b: Bounds, s: State, pc: InitPc, c: Choice)
    requires s.stopOrder
    ensures var next := InitStep(b, s, pc, c).next;
            && (next.Some? ==> InitLeft(b, next.value) < InitLeft(b, pc))
            && next != Some(TestUp) && (next == Some(TestOld) ==> pc.TestUp?)
            && (pc.TestStop? ==> next.None?) && InitLeft(b, pc) > 0
  {
  }

  function LauncherLeft(b: Bounds, s: State): nat {
    match s.launcher
    case Initializing(pc) => InitLeft(b, pc) + 3
    case Activate => 3
    case SpawnReader => 2
    case AssignReader => 1
    case _ => 0
  }

  function ObjectsLeft(b: Bounds, objects: nat): nat {
    if objects == 0 then 0 else b.readings + 2 + ObjectsLeft(b, objects - 1)
  }

  /** The steps that the reader has left once reading is deactivated and the stop order is set. */
  function ReaderLeft(b: Bounds, s: State): nat {
    match s.reader
    case NotStarted => 0
    case Returned => 0
    case TestLoop => 1
    case Enter => 2
    case Resting => 2
    case LogError => 3
    case Sending(readings, objects) => ObjectsLeft(b, objects) + readings + 4
    case Reading(objects) => ObjectsLeft(b, objects) + 3
    case TestError => ObjectsLeft(b, b.objects) + 4
    case Reconnecting(pc) => InitLeft(b, pc) + 2
    case Poll => b.calls + ObjectsLeft(b, b.objects) + 12
  }

  function ReaderMost(b: Bounds): nat {
    b.calls + ObjectsLeft(b, b.objects) + b.readings + 12
  }

  lemma {:induction false} FewerObjects(b: Bounds, m: nat, n: nat)
    requires m <= n
    ensures ObjectsLeft(b, m) <= ObjectsLeft(b, n)
  {
    if m < n {
      FewerObjects(b, m, n - 1);
    }
  }

  function CallerLeft(s: State): nat {
    match s.caller
    case SetStop => 8
    case TestLauncher => 7
    case JoinLauncher => 6
    case TestActive => 5
    case Deactivate => 4
    case JoinReader => 3
    case TestConnection => 2
    case ResetConnection => 1
    case _ => 0
  }

  /** Stop is past the point where it deactivates reading. */
  predicate PastDeactivation(s: State) {
    s.caller.JoinReader? || s.caller.TestConnection? || s.caller.ResetConnection? || s.caller.Stopped?
  }

  /** The sizes that the threads count down are within the bounds. */
  predicate InitWithin(b: Bounds, pc: InitPc) {
    pc.Build? ==> pc.calls <= b.calls
  }

  predicate LauncherWithin(b: Bounds, pc: LauncherPc) {
    pc.Initializing? ==> InitWithin(b, pc.pc)
  }

  predicate ReaderWithin(b: Bounds, pc: ReaderPc) {
    && (pc.Reconnecting? ==> InitWithin(b, pc.pc))
    && (pc.Reading? ==> pc.objects <= b.objects)
    && (pc.Sending? ==> pc.readings <= b.readings && pc.objects <= b.objects)
  }

  predicate Within(b: Bounds, s: State) {
    LauncherWithin(b, s.launcher) && ReaderWithin(b, s.reader)
  }

  lemma InitKeepsWithin(b: Bounds, s: State, pc: InitPc, c: Choice)
    requires InitWithin(b, pc)
    ensures InitStep(b, s, pc, c).next.Some? ==> InitWithin(b, InitStep(b, s, pc, c).next.value)
    ensures var t := InitStep(b, s, pc, c).state; t.launcher == s.launcher && t.reader == s.reader
  {
  }

  lemma LauncherKeepsWithin(b: Bounds, s: State, c: Choice)
    requires Within(b, s)
    ensures Within(b, LauncherStep(b, s, c))
  {
    hide InitStep, InitWithin;
    if s.launcher.Initializing? {
      InitKeepsWithin(b, s, s.launcher.pc, c);
    }
  }

  lemma ReconnectionKeepsWithin(b: Bounds, s: State, c: Choice)
    requires Within(b, s) && s.reader.Reconnecting?
    ensures Within(b, ReaderStep(b, s, c))
  {
    hide InitStep, InitWithin;
    InitKeepsWithin(b, s, s.reader.pc, c);
  }

  lemma ReadingKeepsWithin(b: Bounds, s: State, c: Choice)
    requires Within(b, s) && (s.reader.Reading? || s.reader.Sending?)
    ensures Within(b, ReaderStep(b, s, c))
  {
    hide LauncherWithin;
  }

  lemma LoopingKeepsWithin(b: Bounds, s: State, c: Choice)
    requires Within(b, s) && !s.reader.Reconnecting? && !s.reader.Reading? && !s.reader.Sending?
    ensures Within(b, ReaderStep(b, s, c))
  {
    hide LauncherWithin, InitStep, Called;
  }

  lemma ReaderKeepsWithin(b: Bounds, s: State, c: Choice)
    requires Within(b, s)
    ensures Within(b, ReaderStep(b, s, c))
  {
    hide Within, ReaderStep;
    if s.reader.Reconnecting? {
      ReconnectionKeepsWithin(b, s, c);
    } else if s.reader.Reading? || s.reader.Sending? {
      ReadingKeepsWithin(b, s, c);
    } else {
      LoopingKeepsWithin(b, s, c);
    }
  }

  lemma CallerKeepsWithin(b: Bounds, s: State, c: Choice)
    requires Within(b, s)
    ensures Within(b, CallerStep(s, c))
  {
    hide CallerStep, ReaderWithin;
    CallerMoves(s, c);
  }

  lemma StepKeepsWithin(b: Bounds, s: State, e: Event)
    requires Within(b, s)
    ensures Within(b, Step(b, s, e))
  {
    hide Within, CallerStep, LauncherStep, ReaderStep;
    match e.actor
    case Caller => CallerKeepsWithin(b, s, e.choice);
    case Launcher => LauncherKeepsWithin(b, s, e.choice);
    case Reader => ReaderKeepsWithin(b, s, e.choice);
    case Link => LinkKeepsWithin(b, s, e.choice);
  }

  lemma LinkKeepsWithin(b: Bounds, s: State, c: Choice)
    requires Within(b, s)
    ensures Within(b, LinkStep(s, c))
  {
  }

  lemma ReaderLeftBounded(b: Bounds, s: State)
    requires Within(b, s)
    ensures ReaderLeft(b, s) <= ReaderMost(b)
  {
    if s.reader.Reading? || s.reader.Sending? {
      FewerObjects(b, s.reader.objects, b.objects);
    }
  }

  lemma LauncherLeftBounded(b: Bounds, s: State)
    requires Within(b, s)
    ensures LauncherLeft(b, s) <= b.calls + 12
  {
  }

  /** The work that stop has left: its own steps, those of the launcher, and those of the reader, which only count
      down once the stop order is set and reading deactivated. */
  function Work(b: Bounds, s: State): nat {
    CallerLeft(s)
    + (if s.stopOrder then LauncherLeft(b, s) else b.calls + 12)
    + (if PastDeactivation(s) then ReaderLeft(b, s) else ReaderMost(b))
  }

  /** A turn of this thread makes a step: it is not waiting in a join, and has not ended. */
  predicate CanStep(s: State, a: Actor) {
    match a
    case Caller => StopRuns(s) && !s.caller.Stopped? && (s.caller.JoinLauncher? ==> s.launcher.Finished?)
                   && (s.caller.JoinReader? ==> s.reader.Returned?)
    case Launcher => !s.launcher.Unborn? && !s.launcher.Finished?
    case Reader => !s.reader.NotStarted? && !s.reader.Returned?
    case Link => false
  }

  /** The steps that count: the caller's; the launcher's once the stop order is set; the reader's once reading is
      deactivated. */
  predicate Counts(s: State, a: Actor) {
    CanStep(s, a) && (a.Launcher? ==> s.stopOrder) && (a.Reader? ==> PastDeactivation(s))
  }

  /** A state that stop runs in, reached within the bounds. */
  predicate Stopping(b: Bounds, s: State) {
    Invariant(s) && Within(b, s) && StopRuns(s)
  }

  predicate NoNewStop(events: seq<Event>) {
    forall i :: 0 <= i < |events| && events[i].actor.Caller? ==> !events[i].choice.stop
  }

  lemma CallerWorks(b: Bounds, s: State, c: Choice)
    requires Stopping(b, s) && !c.stop
    ensures var t := CallerStep(s, c);
            StopRuns(t) && Work(b, t) <= Work(b, s) - (if Counts(s, Caller) then 1 else 0)
  {
    ReaderLeftBounded(b, s);
    LauncherLeftBounded(b, s);
  }

  lemma LauncherWorks(b: Bounds, s: State, c: Choice)
    requires Stopping(b, s)
    ensures var t := LauncherStep(b, s, c);
            StopRuns(t) && Work(b, t) <= Work(b, s) - (if Counts(s, Launcher) then 1 else 0)
  {
    hide InitStep, InitLeft;
    if s.launcher.Initializing? {
      InitKeeps(b, s, s.launcher.pc, c);
      if s.stopOrder {
        InitEnds(b, s, s.launcher.pc, c);
      }
    }
  }

  lemma ReconnectionCountsDown(b: Bounds, s: State, c: Choice)
    requires ReaderOk(s) && !s.crashed && s.reader.Reconnecting? && s.stopOrder
    ensures ReaderLeft(b, ReaderStep(b, s, c)) < ReaderLeft(b, s)
  {
    hide InitStep, InitLeft;
    InitKeeps(b, s, s.reader.pc, c);
    InitEnds(b, s, s.reader.pc, c);
  }

  lemma ReadingCountsDown(b: Bounds, s: State, c: Choice)
    requires ReaderOk(s) && !s.crashed && (s.reader.Reading? || s.reader.Sending?)
    ensures ReaderLeft(b, ReaderStep(b, s, c)) < ReaderLeft(b, s)
  {
  }

  lemma ReaderCountsDown(b: Bounds, s: State, c: Choice)
    requires ReaderOk(s) && !s.crashed && CanStep(s, Reader) && s.stopOrder && !s.active
    ensures ReaderLeft(b, ReaderStep(b, s, c)) < ReaderLeft(b, s)
  {
    if s.reader.Reconnecting? {
      hide ReaderStep, ReaderLeft;
      ReconnectionCountsDown(b, s, c);
    } else if s.reader.Reading? || s.reader.Sending? {
      hide ReaderStep, ReaderLeft;
      ReadingCountsDown(b, s, c);
    } else {
      FewerObjects(b, AtMost(c.size, b.objects), b.objects);
      assert InitLeft(b, TestOld) == b.calls + 8;
      hide InitLeft, InitStep, ObjectsLeft, AtMost;
    }
  }

  lemma ReaderLeavesThreads(b: Bounds, s: State, c: Choice)
    requires ReaderOk(s) && !s.crashed
    ensures var t := ReaderStep(b, s, c);
            t.caller == s.caller && t.launcher == s.launcher && t.stopOrder == s.stopOrder
  {
    hide InitStep;
    if s.reader.Reconnecting? {
      InitKeeps(b, s, s.reader.pc, c);
    }
  }

  lemma ReaderWorks(b: Bounds, s: State, c: Choice)
    requires Stopping(b, s)
    ensures var t := ReaderStep(b, s, c);
            StopRuns(t) && Work(b, t) <= Work(b, s) - (if Counts(s, Reader) then 1 else 0)
  {
    hide ReaderLeft, ReaderMost, ReaderStep, ReaderOk, Within;
    ReaderLeavesThreads(b, s, c);
    if Counts(s, Reader) {
      ReaderCountsDown(b, s, c);
    } else if PastDeactivation(s) {
      assert ReaderStep(b, s, c) == s by { EndedReaderStays(b, s, c); }
    }
  }

  lemma EndedReaderStays(b: Bounds, s: State, c: Choice)
    requires !CanStep(s, Reader)
    ensures ReaderStep(b, s, c) == s
  {
  }

  lemma LinkWorks(b: Bounds, s: State, c: Choice)
    requires Stopping(b, s)
    ensures StopRuns(LinkStep(s, c)) && Work(b, LinkStep(s, c)) <= Work(b, s)
  {
  }

  /** No step adds to the work that stop has left, and every step that counts takes from it. */
  lemma StepWorks(b: Bounds, s: State, e: Event)
    requires Stopping(b, s) && (e.actor.Caller? ==> !e.choice.stop)
    ensures Stopping(b, Step(b, s, e))
    ensures Work(b, Step(b, s, e)) <= Work(b, s) - (if Counts(s, e.actor) then 1 else 0)
  {
    hide Invariant, Within, CallerStep, LauncherStep, ReaderStep, LinkStep, Work, StopRuns;
    StepKeeps(b, s, e);
    StepKeepsWithin(b, s, e);
    match e.actor
    case Caller => CallerWorks(b, s, e.choice);
    case Launcher => LauncherWorks(b, s, e.choice);
    case Reader => ReaderWorks(b, s, e.choice);
    case Link => LinkWorks(b, s, e.choice);
  }

  function StepsTaken(b: Bounds, s: State, events: seq<Event>): nat
    decreases |events|
  {
    if events == [] then 0
    else (if Counts(s, events[0].actor) then 1 else 0) + StepsTaken(b, Step(b, s, events[0]), events[1..])
  }

  /** While stop runs, whatever the order of the steps: the caller, the launcher once the stop order is set, and the
      reader once reading is deactivated, together take no more steps than this. */
  lemma {:induction false} StepsAreBounded(b: Bounds, s: State, events: seq<Event>)
    requires Stopping(b, s) && NoNewStop(events)
    ensures Stopping(b, Run(b, s, events))
    ensures StepsTaken(b, s, events) + Work(b, Run(b, s, events)) <= Work(b, s)
    decreases |events|
  {
    hide Stopping, Step, Work, Counts;
    if events != [] {
      StepWorks(b, s, events[0]);
      StepsAreBounded(b, Step(b, s, events[0]), events[1..]);
    }
  }

  /** The work left is bounded by the sizes alone, wherever the threads are. */
  lemma WorkIsBounded(b: Bounds, s: State)
    requires Stopping(b, s)
    ensures Work(b, s) <= 2 * b.calls + ObjectsLeft(b, b.objects) + b.readings + 32
  {
    ReaderLeftBounded(b, s);
    LauncherLeftBounded(b, s);
  }

  /** While stop has not returned, a step that counts is possible: a join that waits, waits for a thread that can go
      on. */
  lemma NoDeadlock(b: Bounds, s: State) returns (a: Actor)
    requires Stopping(b, s) && !s.caller.Stopped?
    ensures Counts(s, a)
  {
    if s.caller.JoinLauncher? && !s.launcher.Finished? {
      a := Launcher;
    } else if s.caller.JoinReader? && !s.reader.Returned? {
      a := Reader;
    } else {
      a := Caller;
    }
  }

  lemma CallerKeepsCounting(s: State, c: Choice, a: Actor)
    requires Invariant(s) && StopRuns(s) && Counts(s, a) && a != Caller
    ensures Counts(CallerStep(s, c), a) || s.caller.Stopped?
  {
  }

  lemma LauncherKeepsCounting(b: Bounds, s: State, c: Choice, a: Actor)
    requires Invariant(s) && StopRuns(s) && Counts(s, a) && a != Launcher
    ensures Counts(LauncherStep(b, s, c), a)
  {
  }

  lemma ReaderKeepsCounting(b: Bounds, s: State, c: Choice, a: Actor)
    requires Invariant(s) && StopRuns(s) && Counts(s, a) && a != Reader
    ensures Counts(ReaderStep(b, s, c), a)
  {
    hide InitStep;
    if s.reader.Reconnecting? {
      InitKeeps(b, s, s.reader.pc, c);
    }
  }

  /** What a thread can do next, no step of another takes away. */
  lemma OthersKeepCounting(b: Bounds, s: State, e: Event, a: Actor)
    requires Stopping(b, s) && !s.caller.Stopped? && Counts(s, a) && a != e.actor
    ensures Counts(Step(b, s, e), a)
  {
    hide CallerStep, LauncherStep, ReaderStep, Invariant, Within;
    match e.actor
    case Caller => CallerKeepsCounting(s, e.choice, a);
    case Launcher => LauncherKeepsCounting(b, s, e.choice, a);
    case Reader => ReaderKeepsCounting(b, s, e.choice, a);
    case Link =>
  }

  /** 1 while the reader may still come to make a connection, once it is deactivated and the stop order is set. */
  function ConnectionsLeft(s: State): nat {
    match s.reader
    case Poll => 1
    case Reconnecting(pc) => if pc.Check? || pc.Build? || pc.Pause? || pc.TestStop? then 0 else 1
    case _ => 0
  }

  lemma ReconnectionConnects(b: Bounds, s: State, c: Choice)
    requires s.stopOrder && s.reader.Reconnecting?
    ensures var t := ReaderStep(b, s, c);
            t.nextId + ConnectionsLeft(t) <= s.nextId + ConnectionsLeft(s)
  {
  }

  lemma LoopingConnects(b: Bounds, s: State, c: Choice)
    requires !s.active && !s.reader.Reconnecting?
    ensures var t := ReaderStep(b, s, c);
            t.nextId + ConnectionsLeft(t) <= s.nextId + ConnectionsLeft(s)
  {
    hide InitStep, AtMost, Unread, OneMoreRead, OneMoreSent;
  }

  lemma ReaderConnects(b: Bounds, s: State, c: Choice)
    requires s.stopOrder && !s.active
    ensures var t := ReaderStep(b, s, c);
            t.nextId + ConnectionsLeft(t) <= s.nextId + ConnectionsLeft(s)
  {
    hide ReaderStep, ConnectionsLeft;
    if s.reader.Reconnecting? {
      ReconnectionConnects(b, s, c);
    } else {
      LoopingConnects(b, s, c);
    }
  }

  lemma StepConnects(b: Bounds, s: State, e: Event)
    requires Stopping(b, s) && PastDeactivation(s) && (e.actor.Caller? ==> !e.choice.stop)
    ensures var t := Step(b, s, e);
            PastDeactivation(t) && t.nextId + ConnectionsLeft(t) <= s.nextId + ConnectionsLeft(s)
  {
    hide Within, ReaderStep, InitStep;
    if e.actor.Reader? {
      ReaderConnects(b, s, e.choice);
      ReaderLeavesThreads(b, s, e.choice);
    }
  }

  /** Over runs: once stop has deactivated reading, at most one more connection is made, whatever the reader was doing:
      the connection loop in which it may be caught runs at most one more iteration. */
  lemma {:induction false} AtMostOneReconnection(b: Bounds, s: State, events: seq<Event>)
    requires Stopping(b, s) && PastDeactivation(s) && NoNewStop(events)
    ensures Run(b, s, events).nextId + ConnectionsLeft(Run(b, s, events)) <= s.nextId + ConnectionsLeft(s) <= s.nextId + 1
    decreases |events|
  {
    hide Stopping, Step, PastDeactivation;
    if events != [] {
      StepWorks(b, s, events[0]);
      StepConnects(b, s, events[0]);
      AtMostOneReconnection(b, Step(b, s, events[0]), events[1..]);
    }
  }

  // ---------------------------------------------------------------- stop returns

  predicate HasTurn(events: seq<Event>, a: Actor) {
    exists i :: 0 <= i < |events| && events[i].actor == a
  }

  /** In a round, every thread gets a turn, in any order and as often as it likes. */
  predicate Fair(round: seq<Event>) {
    HasTurn(round, Caller) && HasTurn(round, Launcher) && HasTurn(round, Reader) && NoNewStop(round)
  }

  lemma {:induction false} StoppedStays(b: Bounds, s: State, events: seq<Event>)
    requires Stopping(b, s) && s.caller.Stopped? && NoNewStop(events)
    ensures Stopping(b, Run(b, s, events)) && Run(b, s, events).caller.Stopped?
    decreases |events|
  {
    if events != [] {
      StepWorks(b, s, events[0]);
      StoppedStays(b, Step(b, s, events[0]), events[1..]);
    }
  }

  /** The turn of a thread that can make a step that counts comes within the round, and takes from the work. */
  lemma {:induction false} TurnWorks(b: Bounds, s: State, round: seq<Event>, a: Actor)
    requires Stopping(b, s) && NoNewStop(round) && HasTurn(round, a) && Counts(s, a)
    ensures Stopping(b, Run(b, s, round))
    ensures Run(b, s, round).caller.Stopped? || Work(b, Run(b, s, round)) < Work(b, s)
    decreases |round|
  {
    hide Invariant, Within, Step, Work, StopRuns, Counts;
    var s' := Step(b, s, round[0]);
    StepWorks(b, s, round[0]);
    if s.caller.Stopped? {
      StoppedStays(b, s, round);
    } else if round[0].actor == a {
      StepsAreBounded(b, s', round[1..]);
    } else {
      OthersKeepCounting(b, s, round[0], a);
      var i :| 0 <= i < |round| && round[i].actor == a;
      assert round[1..][i - 1].actor == a;
      TurnWorks(b, s', round[1..], a);
    }
  }

  function RunRounds(b: Bounds, s: State, rounds: seq<seq<Event>>): State
    decreases |rounds|
  {
    if rounds == [] then s else RunRounds(b, Run(b, s, rounds[0]), rounds[1..])
  }

  /** Stop returns: after as many rounds as there is work left, whatever the threads were doing when it was called,
      whatever the link does and in whatever order they take their turns. */
  lemma {:induction false} StopReturns(b: Bounds, s: State, rounds: seq<seq<Event>>)
    requires Stopping(b, s) && |rounds| >= Work(b, s)
    requires forall i :: 0 <= i < |rounds| ==> Fair(rounds[i])
    ensures RunRounds(b, s, rounds).caller.Stopped?
    decreases |rounds|
  {
    hide Invariant, Within, Run;
    if s.caller.Stopped? {
      StoppedForRounds(b, s, rounds);
    } else {
      var a := NoDeadlock(b, s);
      assert Work(b, s) > 0 && Fair(rounds[0]);
      TurnWorks(b, s, rounds[0], a);
      var s' := Run(b, s, rounds[0]);
      if s'.caller.Stopped? {
        StoppedForRounds(b, s', rounds[1..]);
      } else {
        StopReturns(b, s', rounds[1..]);
      }
    }
  }

  lemma {:induction false} StoppedForRounds(b: Bounds, s: State, rounds: seq<seq<Event>>)
    requires Stopping(b, s) && s.caller.Stopped?
    requires forall i :: 0 <= i < |rounds| ==> Fair(rounds[i])
    ensures RunRounds(b, s, rounds).caller.Stopped?
    decreases |rounds|
  {
    if rounds != [] {
      assert Fair(rounds[0]);
      StoppedStays(b, s, rounds[0]);
      StoppedForRounds(b, Run(b, s, rounds[0]), rounds[1..]);
    }
  }

  lemma {:induction false} RunKeepsWithin(b: Bounds, s: State, events: seq<Event>)
    requires Within(b, s)
    ensures Within(b, Run(b, s, events))
    decreases |events|
  {
    hide Within, Step;
    if events != [] {
      StepKeepsWithin(b, s, events[0]);
      RunKeepsWithin(b, Step(b, s, events[0]), events[1..]);
    }
  }

  /** From the beginning: after any run in which stop has been called, it returns within a number of rounds that
      depends on the sizes alone. */
  lemma StopReturnsInEveryRun(b: Bounds, events: seq<Event>, rounds: seq<seq<Event>>)
    requires StopRuns(Run(b, START, events))
    requires |rounds| >= 2 * b.calls + ObjectsLeft(b, b.objects) + b.readings + 32
    requires forall i :: 0 <= i < |rounds| ==> Fair(rounds[i])
    ensures RunRounds(b, Run(b, START, events), rounds).caller.Stopped?
  {
    RunKeeps(b, START, events);
    RunKeepsWithin(b, START, events);
    WorkIsBounded(b, Run(b, START, events));
    StopReturns(b, Run(b, START, events), rounds);
  }

  // ---------------------------------------------------------------- a recorded error

  /** The reader is where a recorded error leaves it: around its loop, or, once the link was found down, on its way to
      take the connection apart. */
  predicate Gated(s: State, id: nat) {
    match s.reader
    case TestLoop => HasError(s, id)
    case Poll => HasError(s, id)
    case TestError => HasError(s, id)
    case LogError => HasError(s, id)
    case Resting => HasError(s, id)
    case Reconnecting(TestOld) => HasError(s, id)
    case Reconnecting(ResetOld) => HasError(s, id)
    case Reconnecting(TestNone) => s.connection.Null?
    case Reconnecting(Construct) => s.connection.Null?
    case Returned => HasError(s, id) || s.connection.Null?
    case _ => false
  }

  predicate HasError(s: State, id: nat) {
    s.connection.Live? && s.connection.id == id && s.connection.fault
  }

  lemma GatedReconnection(b: Bounds, s: State, id: nat, c: Choice)
    requires Gated(s, id) && s.reader.Reconnecting?
    ensures var t := ReaderStep(b, s, c);
            t.nextId == s.nextId ==> Gated(t, id) && t.effects == s.effects
  {
  }

  lemma GatedReader(b: Bounds, s: State, id: nat, c: Choice)
    requires Gated(s, id)
    ensures var t := ReaderStep(b, s, c);
            t.nextId == s.nextId ==> Gated(t, id) && t.effects == s.effects
  {
    if s.reader.Reconnecting? {
      hide ReaderStep, Gated;
      GatedReconnection(b, s, id, c);
    } else {
      hide InitStep;
    }
  }

  lemma GatedCaller(s: State, id: nat, c: Choice)
    requires Invariant(s) && Gated(s, id) && Owner(s) >= 1
    ensures var t := CallerStep(s, c);
            Gated(t, id) && t.effects == s.effects
  {
  }

  lemma GatedStep(b: Bounds, s: State, id: nat, e: Event)
    requires Invariant(s) && Gated(s, id) && Owner(s) >= 1
    ensures var t := Step(b, s, e);
            t.nextId == s.nextId ==> Gated(t, id) && t.effects == s.effects
  {
    hide ReaderStep, CallerStep, CallerOk;
    if e.actor.Reader? {
      GatedReader(b, s, id, e.choice);
    } else if e.actor.Caller? {
      GatedCaller(s, id, e.choice);
    }
  }

  lemma {:induction false} NoEarlierObjects(b: Bounds, s: State, events: seq<Event>)
    ensures s.nextId <= Run(b, s, events).nextId
    decreases |events|
  {
    hide Step;
    if events != [] {
      StepKeepsIds(b, s, events[0]);
      NoEarlierObjects(b, Step(b, s, events[0]), events[1..]);
    }
  }

  lemma {:induction false} ErrorGates(b: Bounds, s: State, id: nat, events: seq<Event>)
    requires Invariant(s) && Gated(s, id) && Owner(s) >= 1
    ensures var t := Run(b, s, events);
            t.nextId == s.nextId ==> Gated(t, id) && t.effects == s.effects
    decreases |events|
  {
    hide Invariant, Step, Gated, Owner;
    if events != [] {
      var s' := Step(b, s, events[0]);
      StepKeeps(b, s, events[0]);
      GatedStep(b, s, id, events[0]);
      HandOver(b, s, events[0]);
      StepKeepsIds(b, s, events[0]);
      NoEarlierObjects(b, s', events[1..]);
      if s'.nextId == s.nextId {
        ErrorGates(b, s', id, events[1..]);
      }
    }
  }

  /** In every run: from a poll that begins with a recorded error over a link that is up, whatever the link and the
      threads do, nothing is read or sent and the error stays recorded until a new connection is made. */
  lemma ErrorGatesEveryRun(b: Bounds, events: seq<Event>, more: seq<Event>)
    requires var s := Run(b, START, events);
             s.reader.Poll? && s.connection.Live? && s.connection.up && s.connection.fault
    ensures var s := Run(b, START, events);
            var t := Run(b, s, more);
            t.nextId == s.nextId ==>
              && t.effects == s.effects
              && (t.connection.Live? ==> t.connection.id == s.connection.id && t.connection.fault)
  {
    RunKeeps(b, START, events);
    var s := Run(b, START, events);
    ErrorGates(b, s, s.connection.id, more);
  }

  lemma UpStep(b: Bounds, s: State, id: nat, e: Event)
    requires Invariant(s) && Gated(s, id) && Owner(s) >= 1 && !s.reader.Reconnecting?
    requires (s.connection.Live? ==> s.connection.up) && (e.actor.Link? ==> e.choice.up)
    ensures var t := Step(b, s, e);
            t.nextId == s.nextId && !t.reader.Reconnecting? && (t.connection.Live? ==> t.connection.up)
  {
  }

  /** While the link stays up no new connection is made, so the error gates for good, and the connection stays as it is
      until stop takes it away after the reader has ended. */
  lemma {:induction false} ErrorGatesForGood(b: Bounds, s: State, id: nat, events: seq<Event>)
    requires Invariant(s) && Gated(s, id) && Owner(s) >= 1 && !s.reader.Reconnecting?
    requires (s.connection.Live? ==> s.connection.up) && LinkStaysUp(events)
    ensures var t := Run(b, s, events);
            && t.nextId == s.nextId && t.effects == s.effects
            && ((t.connection == Live(id, true, true)) || (t.connection.Null? && t.reader.Returned?))
    decreases |events|
  {
    if events != [] {
      hide Invariant, Step, Gated, Owner;
      StepKeeps(b, s, events[0]);
      UpStep(b, s, id, events[0]);
      GatedStep(b, s, id, events[0]);
      HandOver(b, s, events[0]);
      ErrorGatesForGood(b, Step(b, s, events[0]), id, events[1..]);
    }
  }
}
