/** Runs of a blind without confirmations: an axis a call does not name is sent again unchanged. */
module BlindCarries {
  import opened Wrappers
  import opened Clock
  import opened LevelCodec
  import opened ParamsetKeys
  import opened CommandCache
  import opened Blind

  // ----- what a command leaves in the cache

  function KeyOf(d: Device, axis: Axis): Key { if axis.LevelAxis? then d.LevelKey() else d.TiltKey() }

  function ChannelOn(s: State, axis: Axis): real { if axis.LevelAxis? then s.channelLevel else s.channelTilt }

  predicate HoldsOnGrid(d: Device, sends: Sends, axis: Axis, x: real) {
    KeyOf(d, axis) in sends && sends[KeyOf(d, axis)].value == Num(d.kind.OnGrid(x))
  }

  /** What the device reads from the command for a pair: both levels, each on its grid. */
  lemma CommandMeans(d: Device, level: real, tilt: real)
    requires level >= 0.0 && tilt >= 0.0
    ensures match LevelsCommand(d, level, tilt)
      case Stop => false
      case Combined(parameter, value) =>
        && Convertable(parameter)
        && ConvertCombined(parameter, Txt(value)) ==
             map[LEVEL := Num(d.kind.OnGrid(level)), d.kind.TiltName() := Num(d.kind.OnGrid(tilt))]
      case Levels(l, t) => l == d.kind.OnGrid(level) && t == d.kind.OnGrid(tilt)
  {
    hide RfCombined, IpCombined, ConvertCombined, Grid;
    match d.kind
    case Rf => RfCodec(level, tilt);
    case Ip => IpCodec(level, tilt);
    case Plain =>
  }

  lemma PairStored(d: Device, sends: Sends, x: Val, y: Val, now: int)
    ensures var after := AfterPut(sends, d.channel, Values, map[LEVEL := x, d.kind.TiltName() := y], now);
      && d.LevelKey() in after && after[d.LevelKey()] == Entry(x, now)
      && d.TiltKey() in after && after[d.TiltKey()] == Entry(y, now)
  {
    assert LEVEL != d.kind.TiltName() by { assert |LEVEL| != |d.kind.TiltName()|; }
  }

  /** The cache records both axes of a sent pair, with the values that reach the device. */
  lemma CommandRecorded(d: Device, sends: Sends, level: real, tilt: real, now: int)
    requires level >= 0.0 && tilt >= 0.0
    ensures var after := SendsAfterCommand(d, sends, LevelsCommand(d, level, tilt), now);
      HoldsOnGrid(d, after, LevelAxis, level) && HoldsOnGrid(d, after, TiltAxis, tilt)
  {
    hide ConvertCombined, LevelsCommand, AfterPut, Kind.TiltName, Kind.OnGrid, Convertable;
    CommandMeans(d, level, tilt);
    PairStored(d, sends, Num(d.kind.OnGrid(level)), Num(d.kind.OnGrid(tilt)), now);
  }

  lemma StopRecordsNothing(d: Device, sends: Sends, axis: Axis, now: int)
    ensures var after := SendsAfterCommand(d, sends, Stop, now);
      && (KeyOf(d, axis) in after <==> KeyOf(d, axis) in sends)
      && (KeyOf(d, axis) in sends ==> after[KeyOf(d, axis)] == sends[KeyOf(d, axis)])
  {
  }

  lemma OnGridTwice(kind: Kind, x: real)
    ensures kind.OnGrid(kind.OnGrid(x)) == kind.OnGrid(x)
    ensures x >= 0.0 ==> kind.OnGrid(x) >= 0.0
  {
    GridLaws(x, 100.0);
    GridLaws(x, 200.0);
  }

  // ----- quiet runs

  /** The unconfirmed value of an axis, if there is one, is still fresh. */
  predicate Fresh(d: Device, s: State, axis: Axis) {
    KeyOf(d, axis) in s.sends ==> ChangedWithin(s.sends[KeyOf(d, axis)].sentAt, s.now, STORE_TIMEOUT)
  }

  predicate Positive(x: Option<real>) { x.Some? ==> x.value >= 0.0 }

  /** A step of a run in which every call that leaves out an axis comes within a minute of the transmission before it
      and no event confirms a transmitted value; levels are not negative. */
  predicate Quiet(d: Device, s: State, step: Step) {
    match step
    case Call(_, request) => request.SetLevel? ==> Positive(request.level) && Positive(request.tilt)
    case Acquire(i) =>
      i in s.tasks && s.tasks[i].Waiting? && s.tasks[i].request.SetLevel? ==>
        && (s.tasks[i].request.level.None? ==> Fresh(d, s, LevelAxis))
        && (s.tasks[i].request.tilt.None? ==> Fresh(d, s, TiltAxis))
    case Report(key, value, channelLevel, channelTilt) =>
      && channelLevel >= 0.0 && channelTilt >= 0.0
      && (key == d.LevelKey() || key == d.TiltKey() ==>
            key in s.sends ==> ChangedWithin(s.sends[key].sentAt, s.now, STORE_TIMEOUT) && value != s.sends[key].value)
    case _ => true
  }

  predicate QuietRun(d: Device, s: State, steps: seq<Step>) {
    steps == [] ||
    (QuietRun(d, s, steps[..|steps| - 1]) &&
     match After(d, s, steps[..|steps| - 1])
     case None => false
     case Some(t) => Quiet(d, t, steps[|steps| - 1]))
  }

  // ----- what is carried

  /** The last pair the device has taken. */
  function LastTaken(trace: seq<Issued>): Option<Issued> {
    if trace == [] then None
    else if trace[|trace| - 1].ok && trace[|trace| - 1].Coordinates() then Some(trace[|trace| - 1])
    else LastTaken(trace[..|trace| - 1])
  }

  /** The value an axis must have in a pair sent after `last`. */
  predicate Carries(kind: Kind, last: Option<Issued>, named: Option<real>, axis: Axis, choice: Choice) {
    if named.Some? then choice == Choice(named.value, Requested)
    else if last.Some? then kind.OnGrid(choice.value) == kind.OnGrid(last.value.On(axis).value)
    else choice.source.Channel?
  }

  predicate EntryCarries(d: Device, last: Option<Issued>, e: Issued) {
    e.Coordinates() ==>
      && e.request.SetLevel?
      && e.command == LevelsCommand(d, e.level.value, e.tilt.value)
      && Carries(d.kind, last, e.request.level, LevelAxis, e.level)
      && Carries(d.kind, last, e.request.tilt, TiltAxis, e.tilt)
  }

  ghost predicate TraceCarries(d: Device, trace: seq<Issued>) {
    forall k :: 0 <= k < |trace| ==> EntryCarries(d, LastTaken(trace[..k]), trace[k])
  }

  predicate TaskCarries(d: Device, last: Option<Issued>, task: Task) {
    && (task.Waiting? && task.request.SetLevel? ==> Positive(task.request.level) && Positive(task.request.tilt))
    && ((task.Chosen? || task.Stopped?) && task.request.SetLevel? ==>
          && task.level.value >= 0.0 && task.tilt.value >= 0.0
          && Carries(d.kind, last, task.request.level, LevelAxis, task.level)
          && Carries(d.kind, last, task.request.tilt, TiltAxis, task.tilt))
    && (task.Stopped? ==> task.request.SetLevel?)
  }

  ghost predicate CacheCarries(d: Device, s: State, axis: Axis) {
    match LastTaken(s.trace)
    case None => KeyOf(d, axis) !in s.sends
    case Some(e) => e.On(axis).value >= 0.0 && HoldsOnGrid(d, s.sends, axis, e.On(axis).value)
  }

  ghost predicate QuietInv(d: Device, s: State) {
    && s.channelLevel >= 0.0 && s.channelTilt >= 0.0
    && CacheCarries(d, s, LevelAxis) && CacheCarries(d, s, TiltAxis)
    && (forall i <- s.tasks :: TaskCarries(d, LastTaken(s.trace), s.tasks[i]))
    && TraceCarries(d, s.trace)
  }

  lemma LastTakenAppend(trace: seq<Issued>, e: Issued)
    ensures LastTaken(trace + [e]) == if e.ok && e.Coordinates() then Some(e) else LastTaken(trace)
  {
    assert (trace + [e])[..|trace|] == trace;
  }

  lemma TraceAppend(d: Device, trace: seq<Issued>, e: Issued)
    requires TraceCarries(d, trace) && EntryCarries(d, LastTaken(trace), e)
    ensures TraceCarries(d, trace + [e])
  {
    hide EntryCarries, LastTaken;
    var longer := trace + [e];
    forall k | 0 <= k < |longer| ensures EntryCarries(d, LastTaken(longer[..k]), longer[k]) {
      if k < |trace| {
        assert longer[..k] == trace[..k];
      } else {
        assert longer[..k] == trace;
      }
    }
  }

  /** A choice made while the cache holds the last pair carries it. */
  lemma ChoiceCarries(d: Device, s: State, axis: Axis, named: Option<real>)
    requires CacheCarries(d, s, axis) && (named.None? ==> Fresh(d, s, axis)) && Positive(named) &&
      ChannelOn(s, axis) >= 0.0
    ensures var choice := Choose(named, TargetOf(s.sends, KeyOf(d, axis), s.now), ChannelOn(s, axis));
      choice.value >= 0.0 && Carries(d.kind, LastTaken(s.trace), named, axis, choice)
  {
    hide ChangedWithin, LastTaken, Kind.OnGrid;
    var last := LastTaken(s.trace);
    if last.Some? {
      OnGridTwice(d.kind, last.value.On(axis).value);
    }
  }

  lemma ReadKeeps(d: Device, s: State, axis: Axis)
    requires Fresh(d, s, axis)
    ensures AfterRead(s.sends, KeyOf(d, axis), s.now) == s.sends
  {
    hide ChangedWithin;
  }

  lemma AcquireKeeps(d: Device, s: State, i: nat)
    requires QuietInv(d, s) && Enabled(s, Acquire(i)) && Quiet(d, s, Acquire(i))
    ensures QuietInv(d, Next(d, s, Acquire(i)))
  {
    hide AfterRead, ChangedWithin, LastTaken, TraceCarries, TargetOf, Choose, Carries, Fresh, HoldsOnGrid;
    assert TaskCarries(d, LastTaken(s.trace), s.tasks[i]);
    var r := s.tasks[i].request;
    if r.SetLevel? {
      if r.level.None? {
        ReadKeeps(d, s, LevelAxis);
      }
      if r.tilt.None? {
        ReadKeeps(d, s, TiltAxis);
      }
      ChoiceCarries(d, s, LevelAxis, r.level);
      ChoiceCarries(d, s, TiltAxis, r.tilt);
    }
  }

  lemma StopKeeps(d: Device, s: State, i: nat, ok: bool)
    requires QuietInv(d, s) && Enabled(s, SendStop(i, ok))
    ensures QuietInv(d, Next(d, s, SendStop(i, ok)))
  {
    hide LastTaken, TraceCarries, Carries, SendsAfterCommand;
    var task := s.tasks[i];
    assert TaskCarries(d, LastTaken(s.trace), task);
    var e := Issued(i, task.request, task.level, task.tilt, Stop, ok);
    LastTakenAppend(s.trace, e);
    TraceAppend(d, s.trace, e);
    StopRecordsNothing(d, s.sends, LevelAxis, s.now);
    StopRecordsNothing(d, s.sends, TiltAxis, s.now);
  }

  /** While one task holds the lock, no other has chosen its levels. */
  lemma OthersHaveNotChosen(s: State, i: nat, j: nat)
    requires Inv(s) && i in s.tasks && Holding(s.tasks[i]) && j in s.tasks && j != i
    ensures !Holding(s.tasks[j])
  {
  }

  lemma CoordinatesKeep(d: Device, s: State, i: nat, ok: bool)
    requires QuietInv(d, s) && Inv(s) && Enabled(s, SendCoordinates(i, ok))
    ensures QuietInv(d, Next(d, s, SendCoordinates(i, ok)))
  {
    hide LastTaken, TraceCarries, Carries, SendsAfterCommand, LevelsCommand, HoldsOnGrid, TraceFits, Paired;
    var task := s.tasks[i];
    assert TaskCarries(d, LastTaken(s.trace), task);
    var level, tilt := task.level.value, task.tilt.value;
    var e := Issued(i, task.request, task.level, task.tilt, LevelsCommand(d, level, tilt), ok);
    NoStop(d, level, tilt);
    LastTakenAppend(s.trace, e);
    TraceAppend(d, s.trace, e);
    CommandRecorded(d, s.sends, level, tilt, s.now);
    var t := Next(d, s, SendCoordinates(i, ok));
    forall j <- t.tasks ensures TaskCarries(d, LastTaken(t.trace), t.tasks[j]) {
      if j != i {
        OthersHaveNotChosen(s, i, j);
        assert TaskCarries(d, LastTaken(s.trace), s.tasks[j]);
      }
    }
  }

  lemma ReportKeeps(d: Device, s: State, step: Step)
    requires QuietInv(d, s) && step.Report? && Quiet(d, s, step)
    ensures QuietInv(d, Next(d, s, step))
  {
    hide LastTaken, TraceCarries, Carries, ChangedWithin, TaskCarries;
  }

  lemma StepKeepsQuiet(d: Device, s: State, step: Step)
    requires QuietInv(d, s) && Inv(s) && Enabled(s, step) && Quiet(d, s, step)
    ensures QuietInv(d, Next(d, s, step))
  {
    match step
    case Acquire(i) => AcquireKeeps(d, s, i);
    case SendStop(i, ok) => StopKeeps(d, s, i, ok);
    case SendCoordinates(i, ok) => CoordinatesKeep(d, s, i, ok);
    case Report(_, _, _, _) => ReportKeeps(d, s, step);
    case _ =>
      hide LastTaken, TraceCarries, Carries, HoldsOnGrid;
  }

  lemma {:induction false} QuietRunKeeps(d: Device, s: State, steps: seq<Step>)
    requires Initial(s) && QuietInv(d, s) && After(d, s, steps).Some? && QuietRun(d, s, steps)
    ensures QuietInv(d, After(d, s, steps).value)
  {
    hide QuietInv, Quiet, Next, Enabled;
    if steps != [] {
      var front := steps[..|steps| - 1];
      QuietRunKeeps(d, s, front);
      AfterKeepsInv(d, s, front);
      StepKeepsQuiet(d, After(d, s, front).value, steps[|steps| - 1]);
    }
  }

  // ----- the result

  /** The value last asked for on an axis, in a pair the device has taken. */
  function LastNamed(trace: seq<Issued>, axis: Axis): Option<real> {
    if trace == [] then None else
    var e := trace[|trace| - 1];
    if e.ok && e.Coordinates() && e.request.SetLevel? && e.request.Named(axis).Some? then e.request.Named(axis)
    else LastNamed(trace[..|trace| - 1], axis)
  }

  /** The first pair the device has taken. */
  function FirstTaken(trace: seq<Issued>): Option<Issued> {
    if trace == [] then None
    else if trace[0].ok && trace[0].Coordinates() then Some(trace[0])
    else FirstTaken(trace[1..])
  }

  lemma {:induction false} FirstTakenFront(trace: seq<Issued>)
    requires trace != []
    ensures var front, e := trace[..|trace| - 1], trace[|trace| - 1];
      FirstTaken(trace) ==
        if FirstTaken(front).Some? then FirstTaken(front) else if e.ok && e.Coordinates() then Some(e) else None
  {
    if |trace| > 1 {
      assert trace[1..][..|trace| - 2] == trace[..|trace| - 1][1..];
      FirstTakenFront(trace[1..]);
    }
  }

  lemma {:induction false} FirstOrLast(trace: seq<Issued>)
    ensures FirstTaken(trace).Some? <==> LastTaken(trace).Some?
  {
    if trace != [] {
      FirstTakenFront(trace);
      FirstOrLast(trace[..|trace| - 1]);
    }
  }

  lemma {:induction false} AxisCarried(d: Device, trace: seq<Issued>, axis: Axis)
    requires TraceCarries(d, trace) && LastTaken(trace).Some?
    ensures var value := LastTaken(trace).value.On(axis).value;
      match LastNamed(trace, axis)
      case Some(x) => d.kind.OnGrid(value) == d.kind.OnGrid(x)
      case None => FirstTaken(trace).Some? && FirstTaken(trace).value.On(axis).source.Channel? &&
                   d.kind.OnGrid(value) == d.kind.OnGrid(FirstTaken(trace).value.On(axis).value)
  {
    hide Kind.OnGrid, LevelsCommand;
    var n := |trace| - 1;
    var front, e := trace[..n], trace[n];
    assert TraceCarries(d, front) by {
      assert forall k :: 0 <= k < n ==> front[..k] == trace[..k];
    }
    assert EntryCarries(d, LastTaken(front), e) by {
      assert trace[..n] == front;
    }
    FirstTakenFront(trace);
    FirstOrLast(front);
    if LastTaken(front).Some? {
      AxisCarried(d, front, axis);
    } else {
      NoneNamed(front, axis);
    }
  }

  lemma {:induction false} NoneNamed(trace: seq<Issued>, axis: Axis)
    requires LastTaken(trace).None?
    ensures LastNamed(trace, axis).None?
  {
    if trace != [] {
      NoneNamed(trace[..|trace| - 1], axis);
    }
  }

  lemma {:induction false} FirstTakenIn(trace: seq<Issued>) returns (j: nat)
    requires FirstTaken(trace).Some?
    ensures j < |trace| && trace[j] == FirstTaken(trace).value && trace[j].Coordinates()
  {
    if trace[0].ok && trace[0].Coordinates() {
      j := 0;
    } else {
      var i := FirstTakenIn(trace[1..]);
      j := i + 1;
    }
  }

  /** The call of `e` took the lock in step `m`, and `channel` is the level its channel had then, which it sends. */
  predicate FromChannel(d: Device, s: State, steps: seq<Step>, m: int, e: Issued, axis: Axis, channel: real) {
    && ChosenAt(d, s, steps, m, e.task, e.request, e.level, e.tilt)
    && channel == ChannelOn(After(d, s, steps[..m]).value, axis)
    && e.On(axis).value == channel
  }

  lemma ChannelChosen(d: Device, s: State, steps: seq<Step>, m: int, e: Issued, axis: Axis)
    requires ChosenAt(d, s, steps, m, e.task, e.request, e.level, e.tilt) && e.On(axis).source.Channel?
    ensures FromChannel(d, s, steps, m, e, axis, e.On(axis).value)
  {
    hide After, TargetOf;
  }

  /** In a quiet run, however its calls interleave, every pair the device takes carries on each axis the grid value of
      what was last asked for on that axis; before anything was asked for, that of the level the channel had when the
      call of the first pair took the lock. */
  lemma UnnamedAxisUnchanged(d: Device, s: State, steps: seq<Step>, k: nat, axis: Axis)
    requires Initial(s) && d.LevelKey() !in s.sends && d.TiltKey() !in s.sends
    requires s.channelLevel >= 0.0 && s.channelTilt >= 0.0
    requires After(d, s, steps).Some? && QuietRun(d, s, steps)
    requires k < |After(d, s, steps).value.trace|
    requires After(d, s, steps).value.trace[k].ok && After(d, s, steps).value.trace[k].Coordinates()
    ensures var trace := After(d, s, steps).value.trace;
      && trace[k].command == LevelsCommand(d, trace[k].level.value, trace[k].tilt.value)
      && match LastNamed(trace[..k + 1], axis)
         case Some(x) => d.kind.OnGrid(trace[k].On(axis).value) == d.kind.OnGrid(x)
         case None =>
           FirstTaken(trace).Some? &&
           exists m, channel :: FromChannel(d, s, steps, m, FirstTaken(trace).value, axis, channel) &&
             d.kind.OnGrid(trace[k].On(axis).value) == d.kind.OnGrid(channel)
  {
    hide After, QuietRun, Kind.OnGrid, LevelsCommand, ChosenAt, FromChannel;
    assert QuietInv(d, s);
    QuietRunKeeps(d, s, steps);
    var trace := After(d, s, steps).value.trace;
    var upto := trace[..k + 1];
    assert upto[..k] == trace[..k] && upto[k] == trace[k];
    assert TraceCarries(d, upto) by {
      assert forall j :: 0 <= j <= k ==> upto[..j] == trace[..j];
    }
    AxisCarried(d, upto, axis);
    FirstOrLast(upto);
    FirstTakenPrefix(trace, k + 1);
    assert EntryCarries(d, LastTaken(trace[..k]), trace[k]);
    if LastNamed(upto, axis).None? {
      var j := FirstTakenIn(trace);
      var e := trace[j];
      ChoicesMade(d, s, steps);
      assert EntryChosen(d, s, steps, e);
      var m :| ChosenAt(d, s, steps, m, e.task, e.request, e.level, e.tilt);
      ChannelChosen(d, s, steps, m, e, axis);
    }
  }

  lemma {:induction false} FirstTakenPrefix(trace: seq<Issued>, n: nat)
    requires n <= |trace| && FirstTaken(trace[..n]).Some?
    ensures FirstTaken(trace) == FirstTaken(trace[..n])
  {
    if n > 0 && !(trace[0].ok && trace[0].Coordinates()) {
      assert trace[1..][..n - 1] == trace[..n][1..];
      FirstTakenPrefix(trace[1..], n - 1);
    }
  }
}
