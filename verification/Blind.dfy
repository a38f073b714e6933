/** Moving a blind: concurrent calls of `set_level` and `stop`, interleaved at their awaits. */
module Blind {
  import opened Wrappers
  import opened Clock
  import opened LevelCodec
  import opened ParamsetKeys
  import opened CommandCache

  /** How a blind takes both levels: RF and HmIP blinds in a combined parameter, others as a paramset. */
  datatype Kind = Rf | Ip | Plain
  {
    function TiltName(): string {
      if Rf? then LEVEL_SLATS else LEVEL_2
    }

    function CombinedName(): string {
      if Rf? then LEVEL_COMBINED else COMBINED_PARAMETER
    }

    /** The value that reaches the device for a requested level. */
    function OnGrid(x: real): real {
      match this
      case Rf => Grid(x, 200.0)
      case Ip => Grid(x, 100.0)
      case Plain => x
    }
  }

  /** A blind on a channel of the backend. */
  datatype Device = Device(kind: Kind, channel: string)
  {
    function LevelKey(): Key { Key(channel, Values, LEVEL) }

    function TiltKey(): Key { Key(channel, Values, kind.TiltName()) }
  }

  datatype Axis = LevelAxis | TiltAxis

  datatype Request = SetLevel(level: Option<real>, tilt: Option<real>) | StopOnly
  {
    function Named(axis: Axis): Option<real>
      requires SetLevel?
    {
      if axis.LevelAxis? then level else tilt
    }
  }

  /** Where the value for an axis came from. */
  datatype Source = Requested | Target | Channel

  datatype Choice = Choice(value: real, source: Source)

  /** What goes to the backend. */
  datatype Command =
    | Stop
    | Combined(parameter: string, value: string)
    | Levels(level: real, tilt: real)

  /** One command of a task; `ok` tells whether the backend took it. */
  datatype Issued = Issued(task: nat, request: Request, level: Choice, tilt: Choice, command: Command, ok: bool)
  {
    predicate Coordinates() { !command.Stop? }

    function On(axis: Axis): Choice { if axis.LevelAxis? then level else tilt }
  }

  /** Where a task stands between its awaits. From `Chosen` on it holds the lock. */
  datatype Task =
    | Waiting(request: Request)
    | Chosen(request: Request, level: Choice, tilt: Choice)
    | Stopped(request: Request, level: Choice, tilt: Choice)
    | Finished

  datatype State = State(
    now: int,
    sends: Sends,
    channelLevel: real,
    channelTilt: real,
    lock: Option<nat>,
    tasks: map<nat, Task>,
    trace: seq<Issued>)

  // ----- the code between the awaits

  /** `_target_level` and `_target_tilt_level`: the last value sent and not confirmed. */
  function TargetOf(sends: Sends, key: Key, now: int): Option<real> {
    match ReadValue(sends, key, now)
    case Num(x) => Some(x)
    case _ => None
  }

  function Choose(named: Option<real>, target: Option<real>, channel: real): Choice {
    if named.Some? then Choice(named.value, Requested)
    else if target.Some? then Choice(target.value, Target)
    else Choice(channel, Channel)
  }

  function LevelChoice(d: Device, s: State, r: Request): Choice
    requires r.SetLevel?
  {
    Choose(r.level, TargetOf(s.sends, d.LevelKey(), s.now), s.channelLevel)
  }

  function TiltChoice(d: Device, s: State, r: Request): Choice
    requires r.SetLevel?
  {
    Choose(r.tilt, TargetOf(s.sends, d.TiltKey(), s.now), s.channelTilt)
  }

  /** Reading a target drops it from the cache when it is too old; only omitted axes are read. */
  function SendsAfterChoice(d: Device, s: State, r: Request): Sends
    requires r.SetLevel?
  {
    var afterLevel := if r.level.None? then AfterRead(s.sends, d.LevelKey(), s.now) else s.sends;
    if r.tilt.None? then AfterRead(afterLevel, d.TiltKey(), s.now) else afterLevel
  }

  /** `currently_moving` */
  predicate Moving(level: Choice, tilt: Choice) { level.source.Target? || tilt.source.Target? }

  /** `_send_level`: the command for a pair of levels. */
  function LevelsCommand(d: Device, level: real, tilt: real): Command {
    match d.kind
    case Rf => (match RfCombined(Some(level), Some(tilt))
                case Some(s) => Combined(d.kind.CombinedName(), s)
                case None => Levels(level, tilt))
    case Ip => (match IpCombined(Some(level), Some(tilt))
                case Some(s) => Combined(d.kind.CombinedName(), s)
                case None => Levels(level, tilt))
    case Plain => Levels(level, tilt)
  }

  /** What the client stores once the backend has taken a command. */
  function SendsAfterCommand(d: Device, sends: Sends, command: Command, now: int): Sends {
    match command
    case Stop => AfterSet(sends, d.channel, "STOP", Num(1.0), now)
    case Combined(parameter, value) => AfterSet(sends, d.channel, parameter, Txt(value), now)
    case Levels(level, tilt) =>
      AfterPut(sends, d.channel, Values, map[LEVEL := Num(level), d.kind.TiltName() := Num(tilt)], now)
  }

  const NO_CHOICE := Choice(0.0, Requested)

  // ----- steps

  datatype Step =
    | Call(task: nat, request: Request)
    | Acquire(task: nat)
    | SendStop(task: nat, ok: bool)
    | SendCoordinates(task: nat, ok: bool)
    | Cancel(task: nat)
    | Wait(time: nat)
    | Report(key: Key, value: Val, channelLevel: real, channelTilt: real)

  predicate Enabled(s: State, step: Step) {
    match step
    case Call(i, _) => i !in s.tasks
    case Acquire(i) => s.lock.None? && i in s.tasks && s.tasks[i].Waiting?
    case SendStop(i, _) =>
      i in s.tasks && s.tasks[i].Chosen? &&
      (s.tasks[i].request.StopOnly? || Moving(s.tasks[i].level, s.tasks[i].tilt))
    case SendCoordinates(i, _) =>
      i in s.tasks && (s.tasks[i].Stopped? ||
        (s.tasks[i].Chosen? && s.tasks[i].request.SetLevel? && !Moving(s.tasks[i].level, s.tasks[i].tilt)))
    case Cancel(i) => i in s.tasks && !s.tasks[i].Finished?
    case Wait(_) => true
    case Report(_, _, _, _) => true
  }

  function Issue(d: Device, s: State, task: Task, i: nat, command: Command, ok: bool): State
    requires task.Chosen? || task.Stopped?
  {
    s.(trace := s.trace + [Issued(i, task.request, task.level, task.tilt, command, ok)],
       sends := if ok then SendsAfterCommand(d, s.sends, command, s.now) else s.sends)
  }

  function Finish(s: State, i: nat): State {
    s.(tasks := s.tasks[i := Finished], lock := if s.lock == Some(i) then None else s.lock)
  }

  function Next(d: Device, s: State, step: Step): State
    requires Enabled(s, step)
  {
    match step
    case Call(i, request) => s.(tasks := s.tasks[i := Waiting(request)])
    case Acquire(i) =>
      var r := s.tasks[i].request;
      if r.StopOnly? then s.(lock := Some(i), tasks := s.tasks[i := Chosen(r, NO_CHOICE, NO_CHOICE)])
      else s.(lock := Some(i), sends := SendsAfterChoice(d, s, r),
              tasks := s.tasks[i := Chosen(r, LevelChoice(d, s, r), TiltChoice(d, s, r))])
    case SendStop(i, ok) =>
      var task := s.tasks[i];
      var issued := Issue(d, s, task, i, Stop, ok);
      if task.request.StopOnly? then Finish(issued, i)
      else issued.(tasks := s.tasks[i := Stopped(task.request, task.level, task.tilt)])
    case SendCoordinates(i, ok) =>
      var task := s.tasks[i];
      Finish(Issue(d, s, task, i, LevelsCommand(d, task.level.value, task.tilt.value), ok), i)
    case Cancel(i) => Finish(s, i)
    case Wait(time) => s.(now := s.now + time)
    case Report(key, value, channelLevel, channelTilt) =>
      s.(sends := AfterRemove(s.sends, key, value, s.now, STORE_TIMEOUT),
         channelLevel := channelLevel, channelTilt := channelTilt)
  }

  predicate Initial(s: State) {
    s.lock.None? && s.tasks == map[] && s.trace == [] && s.now > INIT_TIME
  }

  /** The state after a run; None if one of its steps is not enabled when it is its turn. */
  function After(d: Device, s: State, steps: seq<Step>): Option<State> {
    if steps == [] then Some(s) else
    match After(d, s, steps[..|steps| - 1])
    case None => None
    case Some(t) => if Enabled(t, steps[|steps| - 1]) then Some(Next(d, t, steps[|steps| - 1])) else None
  }

  // ----- every interleaving

  predicate Holding(task: Task) { task.Chosen? || task.Stopped? }

  /** An issued command and the state its task must be in for it to be the task's last one. */
  ghost predicate TraceFits(s: State) {
    && (forall k :: 0 <= k < |s.trace| ==> s.trace[k].task in s.tasks)
    && (forall k :: 0 <= k < |s.trace| ==> s.tasks[s.trace[k].task].Stopped? || s.tasks[s.trace[k].task].Finished?)
    && (forall k :: 0 <= k < |s.trace| && s.tasks[s.trace[k].task].Stopped? ==>
          k == |s.trace| - 1 && s.trace[k].command.Stop?)
    && (forall i <- s.tasks :: s.tasks[i].Stopped? ==>
          s.trace != [] && s.trace[|s.trace| - 1].task == i && Moving(s.tasks[i].level, s.tasks[i].tilt))
  }

  /** A STOP directly precedes the coordinates of its task; coordinates have one exactly if an omitted axis was filled
      from an unconfirmed target. */
  ghost predicate Paired(trace: seq<Issued>) {
    && (forall j, k :: 0 <= j < k < |trace| && trace[j].task == trace[k].task ==>
          k == j + 1 && trace[j].command.Stop? && trace[k].Coordinates())
    && (forall k :: 0 <= k < |trace| && trace[k].Coordinates() ==>
          (Moving(trace[k].level, trace[k].tilt) <==> exists j :: 0 <= j < k && trace[j].task == trace[k].task))
  }

  ghost predicate Inv(s: State) {
    && (forall i <- s.tasks :: Holding(s.tasks[i]) <==> s.lock == Some(i))
    && (s.lock.Some? ==> s.lock.value in s.tasks)
    && TraceFits(s)
    && Paired(s.trace)
  }

  lemma PairedAppend(trace: seq<Issued>, e: Issued)
    requires Paired(trace)
    requires forall j :: 0 <= j < |trace| && trace[j].task == e.task ==>
      j == |trace| - 1 && trace[j].command.Stop? && e.Coordinates()
    requires e.Coordinates() ==>
      (Moving(e.level, e.tilt) <==> exists j :: 0 <= j < |trace| && trace[j].task == e.task)
    ensures Paired(trace + [e])
  {
    var longer := trace + [e];
    forall k | 0 <= k < |longer| && longer[k].Coordinates()
      ensures Moving(longer[k].level, longer[k].tilt) <==> exists j :: 0 <= j < k && longer[j].task == longer[k].task
    {
      if k < |trace| {
        assert forall j :: 0 <= j < k ==> longer[j] == trace[j];
      } else {
        assert forall j :: 0 <= j < k ==> longer[j] == trace[j];
      }
    }
  }

  lemma StopKeepsInv(d: Device, s: State, i: nat, ok: bool)
    requires Inv(s) && Enabled(s, SendStop(i, ok))
    ensures Inv(Next(d, s, SendStop(i, ok)))
  {
    hide SendsAfterCommand, Paired;
    var task := s.tasks[i];
    PairedAppend(s.trace, Issued(i, task.request, task.level, task.tilt, Stop, ok));
  }

  lemma CoordinatesKeepInv(d: Device, s: State, i: nat, ok: bool)
    requires Inv(s) && Enabled(s, SendCoordinates(i, ok))
    ensures Inv(Next(d, s, SendCoordinates(i, ok)))
  {
    hide LevelsCommand, SendsAfterCommand, Paired;
    var task := s.tasks[i];
    var command := LevelsCommand(d, task.level.value, task.tilt.value);
    NoStop(d, task.level.value, task.tilt.value);
    PairedAppend(s.trace, Issued(i, task.request, task.level, task.tilt, command, ok));
  }

  lemma StepKeepsInv(d: Device, s: State, step: Step)
    requires Inv(s) && Enabled(s, step)
    ensures Inv(Next(d, s, step))
  {
    hide LevelsCommand, SendsAfterCommand, SendsAfterChoice, LevelChoice, TiltChoice, AfterRemove, Paired;
    match step
    case SendStop(i, ok) => StopKeepsInv(d, s, i, ok);
    case SendCoordinates(i, ok) => CoordinatesKeepInv(d, s, i, ok);
    case _ =>
  }

  lemma NoStop(d: Device, level: real, tilt: real)
    ensures !LevelsCommand(d, level, tilt).Stop?
  {
  }

  lemma {:induction false} AfterKeepsInv(d: Device, s: State, steps: seq<Step>)
    requires Initial(s) && After(d, s, steps).Some?
    ensures Inv(After(d, s, steps).value)
  {
    if steps != [] {
      AfterKeepsInv(d, s, steps[..|steps| - 1]);
      StepKeepsInv(d, After(d, s, steps[..|steps| - 1]).value, steps[|steps| - 1]);
    }
  }

  // ----- where the levels of a command come from

  /** In step `m` of the run the call of task `i` takes the lock and chooses its levels from the state then. */
  predicate ChosenAt(d: Device, s: State, steps: seq<Step>, m: int, i: nat, r: Request, level: Choice, tilt: Choice) {
    0 <= m < |steps| && steps[m] == Acquire(i) && r.SetLevel? &&
    match After(d, s, steps[..m])
    case None => false
    case Some(t) =>
      i in t.tasks && t.tasks[i] == Waiting(r) && level == LevelChoice(d, t, r) && tilt == TiltChoice(d, t, r)
  }

  ghost predicate TaskChosen(d: Device, s: State, steps: seq<Step>, i: nat, task: Task) {
    Holding(task) ==>
      if task.request.StopOnly? then task.Chosen?
      else exists m :: ChosenAt(d, s, steps, m, i, task.request, task.level, task.tilt)
  }

  ghost predicate EntryChosen(d: Device, s: State, steps: seq<Step>, e: Issued) {
    e.Coordinates() ==> exists m :: ChosenAt(d, s, steps, m, e.task, e.request, e.level, e.tilt)
  }

  lemma ChosenStays(d: Device, s: State, steps: seq<Step>)
    requires steps != []
    ensures var front := steps[..|steps| - 1];
      forall m, i, r, level, tilt :: ChosenAt(d, s, front, m, i, r, level, tilt) ==>
        ChosenAt(d, s, steps, m, i, r, level, tilt)
  {
    hide After, LevelChoice, TiltChoice;
    var front := steps[..|steps| - 1];
    forall m: nat | m < |front| ensures front[..m] == steps[..m] && front[m] == steps[m] {
    }
  }

  lemma ChosenNow(d: Device, s: State, steps: seq<Step>, i: nat)
    requires steps != [] && steps[|steps| - 1] == Acquire(i)
    requires After(d, s, steps).Some?
    ensures var task := After(d, s, steps).value.tasks; i in task && TaskChosen(d, s, steps, i, task[i])
  {
    hide LevelChoice, TiltChoice, SendsAfterChoice;
    var m: nat := |steps| - 1;
    var t := After(d, s, steps[..m]).value;
    var r := t.tasks[i].request;
    if r.SetLevel? {
      assert ChosenAt(d, s, steps, m, i, r, LevelChoice(d, t, r), TiltChoice(d, t, r));
    }
  }

  /** Every call that holds the lock, and every pair that was sent, has chosen its levels in some step of the run. */
  lemma {:induction false} ChoicesMade(d: Device, s: State, steps: seq<Step>)
    requires Initial(s) && After(d, s, steps).Some?
    ensures var t := After(d, s, steps).value;
      && (forall i <- t.tasks :: TaskChosen(d, s, steps, i, t.tasks[i]))
      && (forall k :: 0 <= k < |t.trace| ==> EntryChosen(d, s, steps, t.trace[k]))
  {
    if steps != [] {
      var n := |steps| - 1;
      var before := After(d, s, steps[..n]).value;
      ChoicesMade(d, s, steps[..n]);
      ChoicesStay(d, s, steps, before);
      assert After(d, s, steps).value == Next(d, before, steps[n]);
      if steps[n].Acquire? {
        ChosenNow(d, s, steps, steps[n].task);
      }
      NextChosen(d, s, steps, before);
    }
  }

  lemma ChoicesStay(d: Device, s: State, steps: seq<Step>, t: State)
    requires steps != []
    requires forall i <- t.tasks :: TaskChosen(d, s, steps[..|steps| - 1], i, t.tasks[i])
    requires forall k :: 0 <= k < |t.trace| ==> EntryChosen(d, s, steps[..|steps| - 1], t.trace[k])
    ensures forall i <- t.tasks :: TaskChosen(d, s, steps, i, t.tasks[i])
    ensures forall k :: 0 <= k < |t.trace| ==> EntryChosen(d, s, steps, t.trace[k])
  {
    hide ChosenAt;
    ChosenStays(d, s, steps);
  }

  lemma NextChosen(d: Device, s: State, steps: seq<Step>, t: State)
    requires steps != [] && Enabled(t, steps[|steps| - 1])
    requires forall i <- t.tasks :: TaskChosen(d, s, steps, i, t.tasks[i])
    requires forall k :: 0 <= k < |t.trace| ==> EntryChosen(d, s, steps, t.trace[k])
    requires steps[|steps| - 1].Acquire? ==>
      var i := steps[|steps| - 1].task; TaskChosen(d, s, steps, i, Next(d, t, steps[|steps| - 1]).tasks[i])
    ensures var u := Next(d, t, steps[|steps| - 1]);
      && (forall i <- u.tasks :: TaskChosen(d, s, steps, i, u.tasks[i]))
      && (forall k :: 0 <= k < |u.trace| ==> EntryChosen(d, s, steps, u.trace[k]))
  {
    hide ChosenAt, LevelsCommand, SendsAfterCommand, SendsAfterChoice, LevelChoice, TiltChoice, AfterRemove;
  }

  lemma {:induction false} PrefixRuns(d: Device, s: State, steps: seq<Step>, m: nat)
    requires After(d, s, steps).Some? && m < |steps|
    ensures After(d, s, steps[..m]).Some? && Enabled(After(d, s, steps[..m]).value, steps[m])
  {
    if m < |steps| - 1 {
      PrefixRuns(d, s, steps[..|steps| - 1], m);
      assert steps[..|steps| - 1][..m] == steps[..m];
    }
  }

  /** A call that has taken the lock never waits for it again. */
  lemma {:induction false} NeverWaitsAgain(d: Device, s: State, steps: seq<Step>, m: nat, i: nat)
    requires After(d, s, steps).Some? && m < |steps| && steps[m] == Acquire(i)
    ensures var tasks := After(d, s, steps).value.tasks; i in tasks && !tasks[i].Waiting?
  {
    hide LevelChoice, TiltChoice, SendsAfterChoice, LevelsCommand, SendsAfterCommand, AfterRemove;
    if m < |steps| - 1 {
      NeverWaitsAgain(d, s, steps[..|steps| - 1], m, i);
    }
  }

  /** A call takes the lock at most once. */
  lemma LockedOnce(d: Device, s: State, steps: seq<Step>, m: nat, n: nat, i: nat)
    requires After(d, s, steps).Some?
    requires m < |steps| && n < |steps| && steps[m] == Acquire(i) && steps[n] == Acquire(i)
    ensures m == n
  {
    hide After;
    if m != n {
      var lo, hi := if m < n then m else n, if m < n then n else m;
      PrefixRuns(d, s, steps, hi);
      assert steps[..hi][lo] == steps[lo];
      NeverWaitsAgain(d, s, steps[..hi], lo, i);
    }
  }

  /** A target, sent and still unconfirmed, stands in for an axis the request does not name. */
  predicate FillsFromTarget(d: Device, t: State, r: Request)
    requires r.SetLevel?
  {
    || (r.level.None? && TargetOf(t.sends, d.LevelKey(), t.now).Some?)
    || (r.tilt.None? && TargetOf(t.sends, d.TiltKey(), t.now).Some?)
  }

  /** The command before entry `k` is the STOP of the same call. */
  predicate StopsFirst(trace: seq<Issued>, k: nat)
    requires k < |trace|
  {
    k > 0 && trace[k - 1].task == trace[k].task && trace[k - 1].command.Stop?
  }

  /** The pair of entry `k` was chosen in step `m`, and is preceded by the STOP of its call exactly if a target stood in
      for an axis then. */
  predicate StoppedWhen(d: Device, s: State, steps: seq<Step>, trace: seq<Issued>, k: nat, m: nat)
    requires k < |trace|
  {
    && ChosenAt(d, s, steps, m, trace[k].task, trace[k].request, trace[k].level, trace[k].tilt)
    && (StopsFirst(trace, k) <==> FillsFromTarget(d, After(d, s, steps[..m]).value, trace[k].request))
  }

  /** In every interleaving of calls, cancellations, reports and the passing of time: between the STOP of a call and its
      coordinates no other call's command is issued, and a STOP precedes the coordinates exactly when, in the one step
      in which the call took the lock, an axis it does not name had a target still unconfirmed. */
  lemma NothingBetween(d: Device, s: State, steps: seq<Step>, k: nat)
    requires Initial(s) && After(d, s, steps).Some?
    requires k < |After(d, s, steps).value.trace|
    ensures var trace := After(d, s, steps).value.trace;
      && (forall j :: 0 <= j < k && trace[j].task == trace[k].task ==>
           k == j + 1 && trace[j].command.Stop? && trace[k].Coordinates())
      && (trace[k].Coordinates() ==>
           && (exists m: nat :: m < |steps| && steps[m] == Acquire(trace[k].task))
           && (forall m: nat | m < |steps| && steps[m] == Acquire(trace[k].task) ::
                 StoppedWhen(d, s, steps, trace, k, m)))
  {
    hide After;
    AfterKeepsInv(d, s, steps);
    ChoicesMade(d, s, steps);
    var e := After(d, s, steps).value.trace[k];
    if e.Coordinates() {
      assert EntryChosen(d, s, steps, e);
      var m :| ChosenAt(d, s, steps, m, e.task, e.request, e.level, e.tilt);
      assert FillsFromTarget(d, After(d, s, steps[..m]).value, e.request) <==> Moving(e.level, e.tilt);
      forall n: nat | n < |steps| && steps[n] == Acquire(e.task) ensures n == m {
        LockedOnce(d, s, steps, m, n, e.task);
      }
    }
  }
}
