/** What a run of a blind's calls sends: every call that is not cancelled gets through, and nothing else is sent. */
module BlindRuns {
  import opened Wrappers
  import opened Clock
  import opened LevelCodec
  import opened ParamsetKeys
  import opened CommandCache
  import Cache = CommandCache
  import opened Blind
  import opened BlindCarries

  // ----- the trace is what the run sends

  /** The sending steps of a run, in their order. */
  function Sendings(steps: seq<Step>): seq<Step> {
    if steps == [] then []
    else
      var last := steps[|steps| - 1];
      Sendings(steps[..|steps| - 1]) + if last.SendStop? || last.SendCoordinates? then [last] else []
  }

  /** The command tells the device the pair: both levels on its grid, in one parameter or in two. */
  predicate TellsPair(d: Device, command: Command, level: real, tilt: real) {
    match command
    case Stop => false
    case Combined(parameter, value) =>
      parameter == d.kind.CombinedName() && ConvertCombined(parameter, Txt(value)) ==
        map[LEVEL := Num(d.kind.OnGrid(level)), d.kind.TiltName() := Num(d.kind.OnGrid(tilt))]
    case Levels(l, t) => d.kind.Plain? && l == level && t == tilt
  }

  /** The entry is what the step sends. */
  predicate IsSentBy(d: Device, e: Issued, step: Step) {
    match step
    case SendStop(i, ok) => e.task == i && e.ok == ok && e.command == Stop
    case SendCoordinates(i, ok) =>
      && e.task == i && e.ok == ok && e.request.SetLevel? && !e.command.Stop?
      && (e.level.value >= 0.0 && e.tilt.value >= 0.0 ==> TellsPair(d, e.command, e.level.value, e.tilt.value))
    case _ => false
  }

  lemma PairTold(d: Device, level: real, tilt: real)
    requires level >= 0.0 && tilt >= 0.0
    ensures TellsPair(d, LevelsCommand(d, level, tilt), level, tilt)
  {
    hide RfCombined, IpCombined, ConvertCombined, Grid;
    CommandMeans(d, level, tilt);
    PairForm(d, level, tilt);
  }

  lemma PairForm(d: Device, level: real, tilt: real)
    ensures match LevelsCommand(d, level, tilt)
      case Stop => false
      case Combined(parameter, _) => parameter == d.kind.CombinedName() && !d.kind.Plain?
      case Levels(l, t) => d.kind.Plain? && l == level && t == tilt
  {
    hide HmLevelToCpv, Truncate;
  }

  /** The trace of a run has one entry for each of its sending steps, in their order: a STOP for a stop, the pair chosen
      for coordinates, each with the call that sent it and whether the device took it. */
  lemma {:induction false} TraceIsSendings(d: Device, s: State, steps: seq<Step>)
    requires Initial(s) && After(d, s, steps).Some?
    ensures var trace := After(d, s, steps).value.trace;
      |trace| == |Sendings(steps)| && forall k :: 0 <= k < |trace| ==> IsSentBy(d, trace[k], Sendings(steps)[k])
  {
    hide IsSentBy;
    if steps != [] {
      var n := |steps| - 1;
      var t := After(d, s, steps[..n]).value;
      TraceIsSendings(d, s, steps[..n]);
      StopsAreStopped(d, s, steps[..n]);
      OneSending(d, t, steps[n]);
    }
  }

  lemma OneSending(d: Device, t: State, step: Step)
    requires Enabled(t, step)
    requires forall i <- t.tasks :: t.tasks[i].Stopped? ==> t.tasks[i].request.SetLevel?
    ensures var after := Next(d, t, step).trace;
      if step.SendStop? || step.SendCoordinates?
      then |after| == |t.trace| + 1 && after[..|t.trace|] == t.trace && IsSentBy(d, after[|t.trace|], step)
      else after == t.trace
  {
    hide LevelsCommand, SendsAfterCommand, SendsAfterChoice, LevelChoice, TiltChoice, AfterRemove, TellsPair;
    match step
    case SendCoordinates(i, _) =>
      var level, tilt := t.tasks[i].level.value, t.tasks[i].tilt.value;
      NoStop(d, level, tilt);
      if level >= 0.0 && tilt >= 0.0 {
        PairTold(d, level, tilt);
      }
    case _ =>
  }

  lemma {:induction false} StopsAreStopped(d: Device, s: State, steps: seq<Step>)
    requires Initial(s) && After(d, s, steps).Some?
    ensures var t := After(d, s, steps).value;
      forall i <- t.tasks :: t.tasks[i].Stopped? ==> t.tasks[i].request.SetLevel?
  {
    hide LevelsCommand, SendsAfterCommand, SendsAfterChoice, LevelChoice, TiltChoice, AfterRemove;
    if steps != [] {
      StopsAreStopped(d, s, steps[..|steps| - 1]);
    }
  }

  // ----- requests come from calls, and calls finish by sending

  /** The call `i` was made with the request. */
  predicate Called(steps: seq<Step>, i: nat, r: Request) { Call(i, r) in steps }

  /** An entry that completes the request of its call: the pair, or the STOP of a mere stop. */
  predicate Completes(e: Issued) { if e.request.SetLevel? then !e.command.Stop? else e.command.Stop? }

  ghost predicate Accounted(steps: seq<Step>, t: State) {
    && (forall i <- t.tasks :: !t.tasks[i].Finished? ==> Called(steps, i, t.tasks[i].request))
    && (forall k :: 0 <= k < |t.trace| ==>
          Called(steps, t.trace[k].task, t.trace[k].request))
    && (forall i <- t.tasks :: t.tasks[i].Finished? && Cancel(i) !in steps ==> exists k :: CompletedBy(t.trace, k, i))
  }

  predicate CompletedBy(trace: seq<Issued>, k: int, i: nat) {
    0 <= k < |trace| && trace[k].task == i && Completes(trace[k])
  }

  lemma AccountedStays(steps: seq<Step>, t: State)
    requires steps != [] && Accounted(steps[..|steps| - 1], t)
    ensures Accounted(steps, t)
  {
    var front := steps[..|steps| - 1];
    assert forall step :: step in front ==> step in steps;
  }

  lemma AccountedNext(d: Device, steps: seq<Step>, t: State)
    requires steps != [] && Accounted(steps, t) && Enabled(t, steps[|steps| - 1])
    requires forall i <- t.tasks :: t.tasks[i].Stopped? ==> t.tasks[i].request.SetLevel?
    ensures Accounted(steps, Next(d, t, steps[|steps| - 1]))
  {
    hide LevelsCommand, SendsAfterCommand, SendsAfterChoice, LevelChoice, TiltChoice, AfterRemove, Called;
    var step := steps[|steps| - 1];
    var u := Next(d, t, step);
    assert step in steps;
    assert step.Call? ==> Called(steps, step.task, step.request) by { LastCalled(steps); }
    assert t.trace == u.trace[..|t.trace|];
    assert forall k, i :: CompletedBy(t.trace, k, i) ==> CompletedBy(u.trace, k, i);
    match step
    case SendStop(i, _) =>
      assert u.tasks[i].Finished? ==> CompletedBy(u.trace, |t.trace|, i);
    case SendCoordinates(i, _) =>
      NoStop(d, t.tasks[i].level.value, t.tasks[i].tilt.value);
      assert CompletedBy(u.trace, |t.trace|, i);
    case _ =>
  }

  lemma LastCalled(steps: seq<Step>)
    requires steps != []
    ensures var step := steps[|steps| - 1]; step.Call? ==> Called(steps, step.task, step.request)
  {
  }

  lemma {:induction false} RunAccounted(d: Device, s: State, steps: seq<Step>)
    requires Initial(s) && After(d, s, steps).Some?
    ensures Accounted(steps, After(d, s, steps).value)
  {
    hide Accounted;
    if steps != [] {
      var front := steps[..|steps| - 1];
      RunAccounted(d, s, front);
      StopsAreStopped(d, s, front);
      AccountedStays(steps, After(d, s, front).value);
      AccountedNext(d, steps, After(d, s, front).value);
    } else {
      assert Accounted([], s) by { NothingToAccount(s); }
    }
  }

  lemma NothingToAccount(s: State)
    requires Initial(s)
    ensures Accounted([], s)
  {
  }

  /** A call that is not cancelled finishes only by sending: `set_level` its pair, `stop` its STOP, and what it sends is
      for the request it was called with. */
  lemma FinishedHasSent(d: Device, s: State, steps: seq<Step>, i: nat)
    requires Initial(s) && After(d, s, steps).Some?
    requires i in After(d, s, steps).value.tasks && After(d, s, steps).value.tasks[i].Finished? && Cancel(i) !in steps
    ensures var trace := After(d, s, steps).value.trace;
      exists k :: 0 <= k < |trace| && trace[k].task == i && Call(i, trace[k].request) in steps &&
        (if trace[k].request.SetLevel? then !trace[k].command.Stop? else trace[k].command.Stop?)
  {
    hide After;
    RunAccounted(d, s, steps);
    var t := After(d, s, steps).value;
    assert t.tasks[i].Finished?;
    var k :| CompletedBy(t.trace, k, i);
    assert Called(steps, t.trace[k].task, t.trace[k].request);
  }

  // ----- progress

  /** Whoever holds the lock can send, and can do nothing but one of the two; a waiting call can take a free lock. */
  lemma HolderCanSend(d: Device, s: State, steps: seq<Step>, i: nat, ok: bool)
    requires Initial(s) && After(d, s, steps).Some?
    ensures var t := After(d, s, steps).value;
      && (t.lock == Some(i) ==> (Enabled(t, SendStop(i, ok)) <==> !Enabled(t, SendCoordinates(i, ok))))
      && (t.lock.None? && i in t.tasks && t.tasks[i].Waiting? ==> Enabled(t, Acquire(i)))
      && (i !in t.tasks ==> forall r :: Enabled(t, Call(i, r)))
  {
    hide After;
    AfterKeepsInv(d, s, steps);
    assert After(d, s, steps).value.lock == Some(i) ==>
      i in After(d, s, steps).value.tasks && Holding(After(d, s, steps).value.tasks[i]);
  }

  /** How a waiting call goes through when it is left alone. */
  function Completion(d: Device, t: State, i: nat, r: Request): seq<Step> {
    [Acquire(i)] +
    (if r.StopOnly? || FillsFromTarget(d, t, r) then [SendStop(i, true)] else []) +
    (if r.SetLevel? then [SendCoordinates(i, true)] else [])
  }

  /** The value for an axis: the one named, else the target still unconfirmed, else the level of the channel. */
  function Due(named: Option<real>, target: Option<real>, channel: real): real {
    match (named, target)
    case (Some(x), _) => x
    case (None, Some(x)) => x
    case (None, None) => channel
  }

  lemma AfterConcat(d: Device, s: State, steps: seq<Step>, step: Step)
    requires After(d, s, steps).Some? && Enabled(After(d, s, steps).value, step)
    ensures After(d, s, steps + [step]) == Some(Next(d, After(d, s, steps).value, step))
  {
    assert (steps + [step])[..|steps|] == steps;
  }

  /** From any state a run can reach, a call waiting for a free lock goes through if it is left alone. It then has sent,
      to the one request, a STOP exactly if it is a stop or fills an axis from a target, and after it the pair due. */
  lemma CallGoesThrough(d: Device, s: State, steps: seq<Step>, i: nat, r: Request)
    requires Initial(s) && After(d, s, steps).Some?
    requires var t := After(d, s, steps).value; t.lock.None? && i in t.tasks && t.tasks[i] == Waiting(r)
    ensures var t := After(d, s, steps).value; var done := After(d, s, steps + Completion(d, t, i, r));
      && done.Some? && done.value.lock.None? && done.value.tasks == t.tasks[i := Finished]
      && var sent := done.value.trace;
         && t.trace <= sent && |sent| == |t.trace| + |Completion(d, t, i, r)| - 1
         && (forall k :: |t.trace| <= k < |sent| ==> sent[k].task == i && sent[k].request == r && sent[k].ok)
         && (r.SetLevel? ==>
               && sent[|sent| - 1].level.value == Due(r.level, TargetOf(t.sends, d.LevelKey(), t.now), t.channelLevel)
               && sent[|sent| - 1].tilt.value == Due(r.tilt, TargetOf(t.sends, d.TiltKey(), t.now), t.channelTilt))
  {
    hide After, LevelsCommand, SendsAfterCommand, SendsAfterChoice, TargetOf;
    var t := After(d, s, steps).value;
    var one := steps + [Acquire(i)];
    AfterConcat(d, s, steps, Acquire(i));
    var u := After(d, s, one).value;
    if r.StopOnly? {
      AfterConcat(d, s, one, SendStop(i, true));
      assert steps + Completion(d, t, i, r) == one + [SendStop(i, true)];
    } else {
      assert Moving(u.tasks[i].level, u.tasks[i].tilt) <==> FillsFromTarget(d, t, r);
      if FillsFromTarget(d, t, r) {
        AfterConcat(d, s, one, SendStop(i, true));
        AfterConcat(d, s, one + [SendStop(i, true)], SendCoordinates(i, true));
        assert steps + Completion(d, t, i, r) == one + [SendStop(i, true)] + [SendCoordinates(i, true)];
      } else {
        AfterConcat(d, s, one, SendCoordinates(i, true));
        assert steps + Completion(d, t, i, r) == one + [SendCoordinates(i, true)];
      }
    }
  }

  /** Cancelling a call finishes it, frees the lock if it holds it, and sends nothing. */
  lemma CancelledCall(d: Device, s: State, steps: seq<Step>, i: nat)
    requires Initial(s) && After(d, s, steps).Some?
    requires i in After(d, s, steps).value.tasks && !After(d, s, steps).value.tasks[i].Finished?
    ensures var t := After(d, s, steps).value;
      After(d, s, steps + [Cancel(i)]) ==
        Some(t.(tasks := t.tasks[i := Finished], lock := if Holding(t.tasks[i]) then None else t.lock))
  {
    hide After;
    AfterKeepsInv(d, s, steps);
    AfterConcat(d, s, steps, Cancel(i));
  }

  // ----- what a run does to the command cache and to what the channel reports

  /** What a step means for the command cache: omitted axes are read when the lock is taken, what the device takes is
      stored, and reports are events. */
  function OpsOf(d: Device, t: State, step: Step): seq<Op>
    requires Enabled(t, step)
  {
    match step
    case Acquire(i) =>
      var r := t.tasks[i].request;
      (if r.SetLevel? && r.level.None? then [Op.Read(d.LevelKey(), t.now)] else []) +
      (if r.SetLevel? && r.tilt.None? then [Op.Read(d.TiltKey(), t.now)] else [])
    case SendStop(_, true) => [Op.Set(d.channel, "STOP", Num(1.0), t.now)]
    case SendCoordinates(i, true) => (
      match LevelsCommand(d, t.tasks[i].level.value, t.tasks[i].tilt.value)
      case Combined(parameter, value) => [Op.Set(d.channel, parameter, Txt(value), t.now)]
      case Levels(level, tilt) =>
        [Op.Put(d.channel, Values, map[LEVEL := Num(level), d.kind.TiltName() := Num(tilt)], t.now)]
      case Stop => [])
    case Report(key, value, _, _) => [Op.Event(key, value, t.now)]
    case _ => []
  }

  function Ops(d: Device, s: State, steps: seq<Step>): seq<Op>
    requires After(d, s, steps).Some?
  {
    if steps == [] then []
    else
      var n := |steps| - 1;
      Ops(d, s, steps[..n]) + OpsOf(d, After(d, s, steps[..n]).value, steps[n])
  }

  lemma RunOne(ops: seq<Op>, op: Op)
    ensures Run(ops + [op]) == Cache.Step(Run(ops), op)
  {
    assert (ops + [op])[..|ops|] == ops;
  }

  lemma RunTwo(ops: seq<Op>, a: Op, b: Op)
    ensures Run(ops + [a, b]) == Cache.Step(Cache.Step(Run(ops), a), b)
  {
    RunOne(ops, a);
    RunOne(ops + [a], b);
    assert ops + [a] + [b] == ops + [a, b];
  }

  function Applied(sends: Sends, ops: seq<Op>): Sends {
    if |ops| == 0 then sends
    else if |ops| == 1 then Cache.Step(sends, ops[0])
    else Cache.Step(Cache.Step(sends, ops[0]), ops[1])
  }

  lemma SendsOnce(d: Device, t: State, step: Step)
    requires Enabled(t, step)
    ensures Next(d, t, step).sends == Applied(t.sends, OpsOf(d, t, step)) && |OpsOf(d, t, step)| <= 2
  {
    hide LevelChoice, TiltChoice, AfterRead, AfterRemove, AfterSet, AfterPut, LevelsCommand;
    match step
    case SendCoordinates(i, _) => NoStop(d, t.tasks[i].level.value, t.tasks[i].tilt.value);
    case _ =>
  }

  lemma SendsNext(d: Device, t: State, step: Step, ops: seq<Op>)
    requires Enabled(t, step) && t.sends == Run(ops)
    ensures Next(d, t, step).sends == Run(ops + OpsOf(d, t, step))
  {
    hide OpsOf, Next, Enabled, Run, Cache.Step;
    SendsOnce(d, t, step);
    var more := OpsOf(d, t, step);
    if |more| == 1 {
      RunOne(ops, more[0]);
      assert [more[0]] == more;
    } else if |more| == 2 {
      RunTwo(ops, more[0], more[1]);
      assert [more[0], more[1]] == more;
    } else {
      assert ops + more == ops;
    }
  }

  /** The command cache in a run is that of the operations the run means for it. */
  lemma {:induction false} SendsAre(d: Device, s: State, steps: seq<Step>)
    requires s.sends == map[] && After(d, s, steps).Some?
    ensures After(d, s, steps).value.sends == Run(Ops(d, s, steps))
  {
    hide Run;
    if steps != [] {
      var n := |steps| - 1;
      SendsAre(d, s, steps[..n]);
      SendsNext(d, After(d, s, steps[..n]).value, steps[n], Ops(d, s, steps[..n]));
    } else {
      assert Run([]) == map[] by { NothingRun(); }
    }
  }

  /** When a call finds a target for an axis: it is the last value the device took for the axis, counts as sent less
      than a minute ago, and no read or event has dropped it since. */
  lemma TargetIff(d: Device, s: State, steps: seq<Step>, axis: Axis, x: real)
    requires s.sends == map[] && After(d, s, steps).Some?
    ensures var t, ops, key := After(d, s, steps).value, Ops(d, s, steps), KeyOf(d, axis); var i := LastSent(ops, key);
      TargetOf(t.sends, key, t.now) == Some(x) <==>
        i >= 0 && Cache.SentBy(ops[i], key) == Some(Num(x)) &&
        ChangedWithin(ops[i].at, t.now, 60) && Spared(ops, i, key, Num(x))
  {
    hide After, ChangedWithin, Run, Ops, Spared, LastSent, ReadValue, Cache.SentBy;
    SendsAre(d, s, steps);
    AnswerIff(Ops(d, s, steps), After(d, s, steps).value.now, KeyOf(d, axis), Num(x));
  }

  /** The last report of a run; None if there is none. */
  function LastReport(steps: seq<Step>): Option<Step> {
    if steps == [] then None
    else if steps[|steps| - 1].Report? then Some(steps[|steps| - 1])
    else LastReport(steps[..|steps| - 1])
  }

  function Waited(steps: seq<Step>): nat {
    if steps == [] then 0
    else Waited(steps[..|steps| - 1]) + if steps[|steps| - 1].Wait? then steps[|steps| - 1].time else 0
  }

  /** The levels of the channel are those last reported, and only waiting takes time. */
  lemma {:induction false} ChannelIs(d: Device, s: State, steps: seq<Step>)
    requires After(d, s, steps).Some?
    ensures var t := After(d, s, steps).value;
      && t.now == s.now + Waited(steps)
      && (match LastReport(steps)
          case Some(Report(_, _, level, tilt)) => t.channelLevel == level && t.channelTilt == tilt
          case _ => t.channelLevel == s.channelLevel && t.channelTilt == s.channelTilt)
  {
    hide LevelsCommand, SendsAfterCommand, SendsAfterChoice, LevelChoice, TiltChoice, AfterRemove;
    if steps != [] {
      ChannelIs(d, s, steps[..|steps| - 1]);
    }
  }

  // ----- a run

  /** The steps of two calls ten seconds apart, the second of which leaves out the level. */
  function TwoCalls(level: real, tilt: real, tilt': real): seq<Step> {
    [Call(1, SetLevel(Some(level), Some(tilt))), Acquire(1), SendCoordinates(1, true), Wait(10 * SECOND),
     Call(2, SetLevel(None, Some(tilt'))), Acquire(2), SendStop(2, true), SendCoordinates(2, true)]
  }

  lemma RunOn(d: Device, s: State, steps: seq<Step>, n: nat, t: State)
    requires n < |steps| && After(d, s, steps[..n]) == Some(t) && Enabled(t, steps[n])
    requires QuietRun(d, s, steps[..n]) && Quiet(d, t, steps[n])
    ensures After(d, s, steps[..n + 1]) == Some(Next(d, t, steps[n])) && QuietRun(d, s, steps[..n + 1])
  {
    assert steps[..n + 1][..n] == steps[..n];
  }

  /** The state after the first call. */
  lemma FirstCall(d: Device, level: real, tilt: real, tilt': real, channel: real) returns (t: State)
    requires level >= 0.0 && tilt >= 0.0 && tilt' >= 0.0 && channel >= 0.0
    ensures var s, steps := State(1, map[], channel, channel, None, map[], []), TwoCalls(level, tilt, tilt');
      && Initial(s) && After(d, s, steps[..4]) == Some(t) && QuietRun(d, s, steps[..4])
    ensures t.now == 1 + 10 * SECOND && t.lock.None? && t.tasks == map[1 := Finished]
    ensures HoldsOnGrid(d, t.sends, LevelAxis, level) && t.sends[d.LevelKey()].sentAt == 1
    ensures |t.trace| == 1 && TellsPair(d, t.trace[0].command, level, tilt)
  {
    hide After, QuietRun, LevelsCommand, SendsAfterCommand, Kind.OnGrid, Grid, TellsPair;
    var s, steps := State(1, map[], channel, channel, None, map[], []), TwoCalls(level, tilt, tilt');
    assert After(d, s, steps[..0]) == Some(s) && QuietRun(d, s, steps[..0]) by { NoSteps(d, s, steps); }
    RunOn(d, s, steps, 0, s);
    var s1 := Next(d, s, steps[0]);
    RunOn(d, s, steps, 1, s1);
    var s2 := Next(d, s1, steps[1]);
    RunOn(d, s, steps, 2, s2);
    var s3 := Next(d, s2, steps[2]);
    PairTold(d, level, tilt);
    CommandRecorded(d, s2.sends, level, tilt, s2.now);
    CommandStamped(d, s2.sends, level, tilt, s2.now);
    RunOn(d, s, steps, 3, s3);
    t := Next(d, s3, steps[3]);
  }

  /** A blind that was never moved: two calls, the second stopping the blind and sending its level again. */
  lemma TwoCallsRun(d: Device, level: real, tilt: real, tilt': real, channel: real)
    requires level >= 0.0 && tilt >= 0.0 && tilt' >= 0.0 && channel >= 0.0
    ensures var s, steps := State(1, map[], channel, channel, None, map[], []), TwoCalls(level, tilt, tilt');
      && Initial(s) && After(d, s, steps).Some? && QuietRun(d, s, steps)
      && var trace := After(d, s, steps).value.trace;
         && |trace| == 3 && trace[1].command == Stop
         && TellsPair(d, trace[0].command, level, tilt)
         && TellsPair(d, trace[2].command, d.kind.OnGrid(level), tilt')
  {
    hide After, QuietRun, LevelsCommand, SendsAfterCommand, Kind.OnGrid, Grid, TellsPair, ChangedWithin;
    var s, steps := State(1, map[], channel, channel, None, map[], []), TwoCalls(level, tilt, tilt');
    var s4 := FirstCall(d, level, tilt, tilt', channel);
    RunOn(d, s, steps, 4, s4);
    var s5 := Next(d, s4, steps[4]);
    WithinADay(s5.now, 1, STORE_TIMEOUT);
    RunOn(d, s, steps, 5, s5);
    var s6 := Next(d, s5, steps[5]);
    RunOn(d, s, steps, 6, s6);
    var s7 := Next(d, s6, steps[6]);
    OnGridTwice(d.kind, level);
    PairTold(d, d.kind.OnGrid(level), tilt');
    RunOn(d, s, steps, 7, s7);
    assert steps[..8] == steps;
  }

  lemma NoSteps(d: Device, s: State, steps: seq<Step>)
    ensures After(d, s, steps[..0]) == Some(s) && QuietRun(d, s, steps[..0])
  {
  }

  lemma CommandStamped(d: Device, sends: Sends, level: real, tilt: real, now: int)
    requires level >= 0.0 && tilt >= 0.0
    ensures var after := SendsAfterCommand(d, sends, LevelsCommand(d, level, tilt), now);
      && d.LevelKey() in after && after[d.LevelKey()].sentAt == now
      && d.TiltKey() in after && after[d.TiltKey()].sentAt == now
  {
    hide ConvertCombined, LevelsCommand, AfterPut, Kind.TiltName, Kind.OnGrid, Convertable;
    CommandMeans(d, level, tilt);
    PairStored(d, sends, Num(d.kind.OnGrid(level)), Num(d.kind.OnGrid(tilt)), now);
  }
}
