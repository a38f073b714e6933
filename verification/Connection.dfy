/** The connection state of a client: failure counting, availability of its devices, and callback supervision. */
module Connection {
  import opened Wrappers
  import opened Clock

  const MAX_ERRORS := 3
  const CALLBACK_WARN_INTERVAL := 600 * SECOND

  datatype Forced = NotSet | ForceTrue | ForceFalse

  datatype InitState = InitSuccess | InitFailed | DeInitSuccess | DeInitFailed | DeInitSkipped

  // ----- histories

  /** What decides about the availability: connection checks, and successful initialisations of the XML-RPC proxy. */
  datatype Event = Checked(ok: bool) | Initialized

  /** The length of the streak of failed checks a history ends with. */
  function Streak(h: seq<Event>): nat {
    if h == [] then 0 else
    match h[|h| - 1]
    case Checked(true) => 0
    case Checked(false) => Streak(h[..|h| - 1]) + 1
    case Initialized => Streak(h[..|h| - 1])
  }

  /** Since the last initialisation a check has failed as at least the fourth in a row. */
  predicate CutOff(h: seq<Event>) {
    h != [] && !h[|h| - 1].Initialized? &&
    ((h[|h| - 1].Checked? && Streak(h) > MAX_ERRORS) || CutOff(h[..|h| - 1]))
  }

  /** The results of the checks of a history. */
  function Results(h: seq<Event>): seq<bool> {
    if h == [] then []
    else Results(h[..|h| - 1]) + if h[|h| - 1].Checked? then [h[|h| - 1].ok] else []
  }

  /** A streak of `n` means that the last `n` checks failed, and that a check before them, if any, did not. */
  lemma {:induction false} StreakIs(h: seq<Event>)
    ensures Streak(h) <= |Results(h)|
    ensures forall i :: |Results(h)| - Streak(h) <= i < |Results(h)| ==> !Results(h)[i]
    ensures Streak(h) < |Results(h)| ==> Results(h)[|Results(h)| - Streak(h) - 1]
  {
    if h != [] {
      StreakIs(h[..|h| - 1]);
    }
  }

  /** A client is cut off exactly if some check ended a streak of four or more and no initialisation came after it. */
  lemma {:induction false} CutOffIs(h: seq<Event>)
    ensures CutOff(h) <==>
      exists i :: 0 <= i < |h| && EndsLongStreak(h, i) && forall j :: i < j < |h| ==> !h[j].Initialized?
  {
    if h != [] {
      var n := |h| - 1;
      CutOffIs(h[..n]);
      forall i | 0 <= i < n ensures EndsLongStreak(h[..n], i) <==> EndsLongStreak(h, i) {
        assert h[..n][..i + 1] == h[..i + 1];
      }
      assert h[..n + 1] == h;
      if h[n].Checked? && Streak(h) > MAX_ERRORS {
        assert EndsLongStreak(h, n);
      }
      if CutOff(h[..n]) && !h[n].Initialized? {
        var i :| 0 <= i < n && EndsLongStreak(h[..n], i) && forall j :: i < j < n ==> !h[..n][j].Initialized?;
        assert forall j :: i < j < |h| ==> j == n || h[j] == h[..n][j];
        assert EndsLongStreak(h, i);
      }
      if i :| 0 <= i < |h| && EndsLongStreak(h, i) && forall j :: i < j < |h| ==> !h[j].Initialized? {
        if i < n {
          assert EndsLongStreak(h[..n], i);
          assert forall j :: i < j < n ==> h[..n][j] == h[j];
        }
      }
    }
  }

  predicate EndsLongStreak(h: seq<Event>, i: int) {
    0 <= i < |h| && h[i].Checked? && Streak(h[..i + 1]) > MAX_ERRORS
  }

  predicate NoInit(h: seq<Event>) { forall i :: 0 <= i < |h| ==> !h[i].Initialized? }

  /** The first `n` events are failed checks. */
  predicate FailsFirst(h: seq<Event>, n: nat) { n <= |h| && forall i :: 0 <= i < n ==> h[i] == Checked(false) }

  lemma {:induction false} StreakAfterInit(h: seq<Event>, c: seq<Event>)
    requires NoInit(c)
    ensures Streak(h + [Initialized] + c) == if FailsFirst(c, |c|) then Streak(h) + |c| else Streak(c)
    ensures FailsFirst(c, |c|) ==> Streak(c) == |c|
  {
    var all := h + [Initialized] + c;
    if c == [] {
      assert all[..|all| - 1] == h;
    } else {
      var front := c[..|c| - 1];
      assert all[..|all| - 1] == h + [Initialized] + front;
      StreakAfterInit(h, front);
      assert FailsFirst(c, |c|) <==> FailsFirst(front, |front|) && c[|c| - 1] == Checked(false);
    }
  }

  /** What cuts a client off after an initialisation: four failures in a row since then, or failures directly after it
      that continue a streak from before it beyond three. */
  lemma {:induction false} CutOffAfterInit(h: seq<Event>, c: seq<Event>)
    requires NoInit(c)
    ensures CutOff(h + [Initialized] + c) <==>
      CutOff(c) || exists n: nat :: 0 < n <= |c| && FailsFirst(c, n) && Streak(h) + n > 3
  {
    var all := h + [Initialized] + c;
    if c != [] {
      var front := c[..|c| - 1];
      assert all[..|all| - 1] == h + [Initialized] + front;
      CutOffAfterInit(h, front);
      StreakAfterInit(h, c);
      assert forall n: nat :: n < |c| ==> (FailsFirst(front, n) <==> FailsFirst(c, n));
    }
  }

  function Fails(n: nat): seq<Event> { seq(n, _ => Checked(false)) }

  lemma {:induction false} CutOffFails(n: nat)
    ensures Streak(Fails(n)) == n && (CutOff(Fails(n)) <==> n > MAX_ERRORS)
  {
    if n > 0 {
      assert Fails(n)[..n - 1] == Fails(n - 1);
      CutOffFails(n - 1);
    }
  }

  /** Failures directly after an initialisation: the streak from before it counts on. */
  lemma FailuresAfterInit(h: seq<Event>, n: nat)
    ensures CutOff(h + [Initialized] + Fails(n)) <==> n > 0 && Streak(h) + n > 3
  {
    CutOffAfterInit(h, Fails(n));
    CutOffFails(n);
    assert n > 0 ==> FailsFirst(Fails(n), n);
  }

  /** The rule that it takes four failures in a row since the last initialisation holds after an initialisation exactly
      if the failure count was 0 when it was made. */
  lemma FourFailuresIff(h: seq<Event>)
    ensures (forall c :: NoInit(c) ==> (CutOff(h + [Initialized] + c) <==> CutOff(c))) <==> Streak(h) == 0
  {
    if Streak(h) == 0 {
      forall c | NoInit(c) ensures CutOff(h + [Initialized] + c) <==> CutOff(c) {
        CutOffAfterInit(h, c);
        CutOffAfterInit([], c);
        FreshStart(c);
      }
    } else {
      FailuresAfterInit(h, MAX_ERRORS);
      FailuresAfterInit([], MAX_ERRORS);
      FreshStart(Fails(MAX_ERRORS));
      assert NoInit(Fails(MAX_ERRORS));
    }
  }

  lemma {:induction false} FreshStart(c: seq<Event>)
    requires NoInit(c)
    ensures CutOff([] + [Initialized] + c) <==> CutOff(c)
  {
    var all := [] + [Initialized] + c;
    if c == [] {
      assert all[..0] == [];
    } else {
      assert all[..|all| - 1] == [] + [Initialized] + c[..|c| - 1];
      FreshStart(c[..|c| - 1]);
      StreakAfterInit([], c);
    }
  }

  /** After three failures before an initialisation, the first failure after it cuts the client off. */
  lemma OneFailureAfterInit(h: seq<Event>)
    ensures CutOff(h + [Initialized, Checked(false)]) <==> Streak(h) >= 3
    ensures !CutOff(h + [Initialized])
  {
    assert h + [Initialized, Checked(false)] == h + [Initialized] + Fails(1);
    FailuresAfterInit(h, 1);
    FailuresAfterInit(h, 0);
    assert h + [Initialized] == h + [Initialized] + Fails(0);
  }

  class Client {
    const interfaceId: string
    const supportsXmlRpc: bool
    const supportsPushUpdates: bool
    const supportsPingPong: bool
    /** Whether a connection check renews the time stamp; JSON-RPC clients leave it alone. */
    const checksRenew: bool
    /** The devices of the central, each with its interface. */
    const devices: map<string, string>

    var errorCount: nat
    var available: bool
    var callbackAlive: bool
    var modifiedAt: int
    var forced: map<string, Forced>

    ghost var history: seq<Event>
    /** The availability in each CALLBACK event fired. */
    ghost var callbacks: seq<bool>

    ghost predicate Valid()
      reads this
    {
      && errorCount == Streak(history)
      && (available <==> !CutOff(history))
      && (forall d <- devices :: d in forced)
      && (forall d <- devices | devices[d] == interfaceId ::
            forced[d] == if available then NotSet else ForceFalse)
      && (forall i :: 0 <= i < |callbacks| ==> callbacks[i] == (i % 2 == 1))
      && callbackAlive == (|callbacks| % 2 == 0)
    }

    /** Nothing happened to the devices of other interfaces. */
    twostate predicate OthersUntouched()
      reads this
    {
      forall d <- devices | devices[d] != interfaceId && d in old(forced) :: d in forced && forced[d] == old(forced[d])
    }

    constructor (interfaceId: string, xmlRpc: bool, push: bool, pingPong: bool, jsonRpc: bool,
                 devices: map<string, string>)
      ensures Valid() && history == [] && callbacks == []
      ensures this.interfaceId == interfaceId && this.devices == devices && supportsXmlRpc == xmlRpc
      ensures checksRenew == !jsonRpc
    {
      checksRenew := !jsonRpc;
      this.interfaceId, this.devices := interfaceId, devices;
      supportsXmlRpc, supportsPushUpdates, supportsPingPong := xmlRpc, push, pingPong;
      errorCount, available, callbackAlive, modifiedAt := 0, true, true, INIT_TIME;
      forced := map d | d in devices :: NotSet;
      history, callbacks := [], [];
    }

    /** `_mark_all_devices_forced_availability`: the devices are only touched when the availability changes. */
    method MarkAllDevices(value: Forced)
      requires value != ForceTrue
      requires forall d <- devices :: d in forced
      requires forall d <- devices | devices[d] == interfaceId :: forced[d] == if available then NotSet else ForceFalse
      modifies `available, `forced
      ensures available == (value != ForceFalse) && OthersUntouched()
      ensures forall d <- devices :: d in forced
      ensures forall d <- devices | devices[d] == interfaceId :: forced[d] == if available then NotSet else ForceFalse
    {
      var nowAvailable := value != ForceFalse;
      if available != nowAvailable {
        var todo := devices.Keys;
        while todo != {}
          invariant todo <= devices.Keys && available == old(available)
          invariant forall d <- devices :: d in forced
          invariant forall d <- devices ::
            forced[d] == if d !in todo && devices[d] == interfaceId then value else old(forced)[d]
          decreases todo
        {
          var d :| d in todo;
          if devices[d] == interfaceId && forced[d] != value {
            forced := forced[d := value];
          }
          todo := todo - {d};
        }
        available := nowAvailable;
      }
    }

    /** `is_connected`. `ok` is the answer of the backend to the check made at `at`, which also sets `modified_at` but
        for JSON-RPC clients. */
    method IsConnected(ok: bool, at: int, now: int) returns (connected: bool)
      requires Valid()
      modifies `errorCount, `available, `forced, `modifiedAt, `history
      ensures Valid() && OthersUntouched() && history == old(history) + [Checked(ok)]
      ensures modifiedAt == if !checksRenew then old(modifiedAt) else if ok then at else INIT_TIME
      ensures Streak(history) > MAX_ERRORS ==> !connected && !available
      ensures Streak(history) <= MAX_ERRORS ==> available == old(available)
      ensures Streak(history) <= MAX_ERRORS ==>
        (connected <==> (supportsPushUpdates ==> now - modifiedAt < CALLBACK_WARN_INTERVAL))
    {
      assert (history + [Checked(ok)])[..|history|] == history;
      if checksRenew {
        modifiedAt := if ok then at else INIT_TIME;
      }
      history := history + [Checked(ok)];
      if ok {
        errorCount := 0;
      } else {
        errorCount := errorCount + 1;
      }
      if errorCount > MAX_ERRORS {
        MarkAllDevices(ForceFalse);
        return false;
      }
      if !supportsPushUpdates {
        return true;
      }
      return now - modifiedAt < CALLBACK_WARN_INTERVAL;
    }

    /** `proxy_init`; `ok` tells whether the backend took the call. */
    method ProxyInit(ok: bool, now: int) returns (state: InitState)
      requires Valid()
      modifies `available, `forced, `modifiedAt, `history
      ensures Valid() && OthersUntouched()
      ensures history == old(history) + if supportsXmlRpc && ok then [Initialized] else []
      ensures state == if supportsXmlRpc && !ok then InitFailed else InitSuccess
      ensures supportsXmlRpc && ok ==> available && modifiedAt == now
      ensures supportsXmlRpc && !ok ==> available == old(available) && modifiedAt == INIT_TIME
      ensures !supportsXmlRpc ==> available == old(available) && modifiedAt == old(modifiedAt)
    {
      if !supportsXmlRpc {
        return InitSuccess;
      }
      if !ok {
        modifiedAt := INIT_TIME;
        return InitFailed;
      }
      assert (history + [Initialized])[..|history|] == history;
      MarkAllDevices(NotSet);
      history := history + [Initialized];
      modifiedAt := now;
      return InitSuccess;
    }

    /** `proxy_de_init` */
    method ProxyDeInit(ok: bool) returns (state: InitState)
      requires Valid()
      modifies `modifiedAt
      ensures Valid()
      ensures state ==
        if !supportsXmlRpc then DeInitSuccess else if old(modifiedAt) == INIT_TIME then DeInitSkipped
        else if ok then DeInitSuccess else DeInitFailed
      ensures modifiedAt == if supportsXmlRpc && ok then INIT_TIME else old(modifiedAt)
    {
      if !supportsXmlRpc {
        return DeInitSuccess;
      }
      if modifiedAt == INIT_TIME {
        return DeInitSkipped;
      }
      if !ok {
        return DeInitFailed;
      }
      modifiedAt := INIT_TIME;
      return DeInitSuccess;
    }

    /** `proxy_re_init` */
    method ProxyReInit(deInitOk: bool, initOk: bool, now: int) returns (state: InitState)
      requires Valid()
      modifies `available, `forced, `modifiedAt, `history
      ensures Valid() && OthersUntouched()
      ensures state ==
        if supportsXmlRpc && old(modifiedAt) != INIT_TIME && !deInitOk then DeInitFailed
        else if supportsXmlRpc && !initOk then InitFailed else InitSuccess
      ensures modifiedAt ==
        if !supportsXmlRpc || state.DeInitFailed? then old(modifiedAt) else if initOk then now else INIT_TIME
      ensures history == old(history) + if supportsXmlRpc && initOk && !state.DeInitFailed? then [Initialized] else []
    {
      state := ProxyDeInit(deInitOk);
      if state != DeInitFailed {
        state := ProxyInit(initOk, now);
      }
    }

    /** What `is_connected` answers for the failure count `count` and the time stamp `stamp`. */
    predicate Connected(count: nat, stamp: int, now: int) {
      count <= MAX_ERRORS && (supportsPushUpdates ==> now - stamp < CALLBACK_WARN_INTERVAL)
    }

    /** `reconnect`: goes through exactly if the client is found connected; then it is initialised again. */
    method Reconnect(ok: bool, at: int, now: int, deInitOk: bool, initOk: bool, later: int) returns (done: bool)
      requires Valid()
      modifies `errorCount, `available, `forced, `modifiedAt, `history
      ensures Valid()
      ensures var stamp := if !checksRenew then old(modifiedAt) else if ok then at else INIT_TIME;
        && (done <==> Connected(Streak(old(history) + [Checked(ok)]), stamp, now))
        && history == old(history) + [Checked(ok)] +
             if done && supportsXmlRpc && initOk && (stamp == INIT_TIME || deInitOk) then [Initialized] else []
    {
      done := IsConnected(ok, at, now);
      if done {
        var state := ProxyReInit(deInitOk, initOk, later);
      }
    }

    /** `is_callback_alive`; `lastEvent` is the time of the last event received, if any. */
    method IsCallbackAlive(lastEvent: Option<int>, now: int) returns (alive: bool)
      requires Valid()
      modifies `callbackAlive, `callbacks
      ensures Valid()
      ensures alive <==> (supportsPingPong && lastEvent.Some? ==> now - lastEvent.value <= CALLBACK_WARN_INTERVAL)
      ensures callbacks == old(callbacks) +
        if supportsPingPong && lastEvent.Some? && alive != old(callbackAlive) then [alive] else []
    {
      if !supportsPingPong {
        return true;
      }
      if lastEvent.Some? {
        if now - lastEvent.value > CALLBACK_WARN_INTERVAL {
          if callbackAlive {
            callbacks := callbacks + [false];
            callbackAlive := false;
          }
          return false;
        }
        if !callbackAlive {
          callbacks := callbacks + [true];
          callbackAlive := true;
        }
      }
      return true;
    }
  }
}
