/** The cache of values sent and not yet confirmed by an event. */
module CommandCache {
  import opened Wrappers
  import opened Clock
  import opened LevelCodec
  import opened ParamsetKeys

  /** A data point of the cache's interface. */
  datatype Key = Key(channel: string, paramset: ParamsetKey, parameter: string)

  datatype Entry = Entry(value: Val, sentAt: int)

  type Sends = map<Key, Entry>

  const STORE_TIMEOUT: nat := 60

  // ----- what the operations do to the cache

  /** The keys and values a `put_paramset` of `values` stores. */
  function PutEntries(channel: string, paramset: ParamsetKey, values: map<string, Val>, now: int): Sends {
    map key | key in (set p | p in values :: Key(channel, paramset, p)) :: Entry(values[key.parameter], now)
  }

  function AfterPut(sends: Sends, channel: string, paramset: ParamsetKey, values: map<string, Val>, now: int): Sends {
    sends + PutEntries(channel, paramset, values, now)
  }

  predicate Convertable(parameter: string) { parameter == COMBINED_PARAMETER || parameter == LEVEL_COMBINED }

  function AfterSet(sends: Sends, channel: string, parameter: string, value: Val, now: int): Sends {
    if Convertable(parameter) then AfterPut(sends, channel, Values, ConvertCombined(parameter, value), now)
    else sends[Key(channel, Values, parameter) := Entry(value, now)]
  }

  /** Removal of an entry that is too old, or whose value has been confirmed. */
  function AfterRemove(sends: Sends, key: Key, value: Val, now: int, maxAge: nat): Sends {
    if key in sends && (!ChangedWithin(sends[key].sentAt, now, maxAge) || (value != Null && sends[key].value == value))
    then sends - {key} else sends
  }

  function ReadValue(sends: Sends, key: Key, now: int): Val {
    if key in sends && ChangedWithin(sends[key].sentAt, now, STORE_TIMEOUT) then sends[key].value else Null
  }

  /** A read drops an entry that is too old. */
  function AfterRead(sends: Sends, key: Key, now: int): Sends {
    AfterRemove(sends, key, Null, now, STORE_TIMEOUT)
  }

  lemma PutNothing(sends: Sends, channel: string, paramset: ParamsetKey, now: int)
    ensures AfterPut(sends, channel, paramset, map[], now) == sends
  {
  }

  lemma PutOne(sends: Sends, channel: string, paramset: ParamsetKey, values: map<string, Val>, p: string, v: Val,
               now: int)
    ensures AfterPut(sends, channel, paramset, values, now)[Key(channel, paramset, p) := Entry(v, now)] ==
      AfterPut(sends, channel, paramset, values[p := v], now)
  {
    hide PutEntries;
    var k := Key(channel, paramset, p);
    PutEntriesOne(channel, paramset, values, p, v, now);
    assert (sends + PutEntries(channel, paramset, values, now))[k := Entry(v, now)] ==
      sends + PutEntries(channel, paramset, values, now)[k := Entry(v, now)];
  }

  lemma PutEntriesOne(channel: string, paramset: ParamsetKey, values: map<string, Val>, p: string, v: Val, now: int)
    ensures PutEntries(channel, paramset, values[p := v], now) ==
      PutEntries(channel, paramset, values, now)[Key(channel, paramset, p) := Entry(v, now)]
  {
  }

  class CommandCache {
    var lastSend: Sends

    constructor ()
      ensures lastSend == map[]
    {
      lastSend := map[];
    }

    method AddSetValue(channel: string, parameter: string, value: Val, now: int)
      modifies this
      ensures lastSend == AfterSet(old(lastSend), channel, parameter, value, now)
    {
      if Convertable(parameter) {
        AddCombinedParameter(channel, parameter, value, now);
      } else {
        lastSend := lastSend[Key(channel, Values, parameter) := Entry(value, now)];
      }
    }

    method AddPutParamset(channel: string, paramset: ParamsetKey, values: map<string, Val>, now: int)
      modifies this
      ensures lastSend == AfterPut(old(lastSend), channel, paramset, values, now)
    {
      hide AfterPut;
      var todo := values.Keys;
      ghost var done: map<string, Val> := map[];
      PutNothing(lastSend, channel, paramset, now);
      while todo != {}
        invariant todo <= values.Keys && done == values - todo
        invariant lastSend == AfterPut(old(lastSend), channel, paramset, done, now)
        decreases todo
      {
        var p :| p in todo;
        PutOne(old(lastSend), channel, paramset, done, p, values[p], now);
        lastSend := lastSend[Key(channel, paramset, p) := Entry(values[p], now)];
        todo := todo - {p};
        done := done[p := values[p]];
      }
      assert done == values;
    }

    method AddCombinedParameter(channel: string, parameter: string, combined: Val, now: int)
      modifies this
      ensures lastSend == AfterPut(old(lastSend), channel, Values, ConvertCombined(parameter, combined), now)
    {
      var values := ConvertCombined(parameter, combined);
      if values != map[] {
        AddPutParamset(channel, Values, values, now);
      }
    }

    method GetLastValueSend(key: Key, now: int) returns (value: Val)
      modifies this
      ensures value == ReadValue(old(lastSend), key, now)
      ensures lastSend == AfterRead(old(lastSend), key, now)
    {
      if key in lastSend {
        if ChangedWithin(lastSend[key].sentAt, now, STORE_TIMEOUT) {
          return lastSend[key].value;
        }
        RemoveLastValueSend(key, Null, now, STORE_TIMEOUT);
      }
      return Null;
    }

    method RemoveLastValueSend(key: Key, value: Val, now: int, maxAge: nat)
      modifies this
      ensures lastSend == AfterRemove(old(lastSend), key, value, now, maxAge)
    {
      if key in lastSend {
        var entry := lastSend[key];
        if !ChangedWithin(entry.sentAt, now, maxAge) || (value != Null && entry.value == value) {
          lastSend := lastSend - {key};
        }
      }
    }
  }

  // ----- runs

  /** One use of the cache: values sent together, an event, or a read of the unconfirmed value. */
  datatype Op =
    | Set(channel: string, parameter: string, value: Val, at: int)
    | Put(channel: string, paramset: ParamsetKey, values: map<string, Val>, at: int)
    | Event(key: Key, value: Val, at: int)
    | Read(key: Key, at: int)

  function Step(sends: Sends, op: Op): Sends {
    match op
    case Set(channel, parameter, value, at) => AfterSet(sends, channel, parameter, value, at)
    case Put(channel, paramset, values, at) => AfterPut(sends, channel, paramset, values, at)
    case Event(key, value, at) => AfterRemove(sends, key, value, at, STORE_TIMEOUT)
    case Read(key, at) => AfterRead(sends, key, at)
  }

  function Run(ops: seq<Op>): Sends {
    if ops == [] then map[] else Step(Run(ops[..|ops| - 1]), ops[|ops| - 1])
  }

  /** The value an operation sends for a data point: directly, within a paramset, or inside a combined parameter. */
  function SentBy(op: Op, key: Key): Option<Val> {
    match op
    case Set(channel, parameter, value, _) =>
      if Convertable(parameter) then Among(channel, Values, ConvertCombined(parameter, value), key)
      else if key == Key(channel, Values, parameter) then Some(value) else None
    case Put(channel, paramset, values, _) => Among(channel, paramset, values, key)
    case _ => None
  }

  function Among(channel: string, paramset: ParamsetKey, values: map<string, Val>, key: Key): Option<Val> {
    if key.channel == channel && key.paramset == paramset && key.parameter in values
    then Some(values[key.parameter]) else None
  }

  /** The last operation to send a value for `key`; -1 if there is none. */
  function LastSent(ops: seq<Op>, key: Key): (i: int)
    ensures -1 <= i < |ops|
    ensures i >= 0 ==> SentBy(ops[i], key).Some?
    ensures forall j :: i < j < |ops| ==> SentBy(ops[j], key).None?
  {
    if ops == [] then -1
    else if SentBy(ops[|ops| - 1], key).Some? then |ops| - 1
    else LastSent(ops[..|ops| - 1], key)
  }

  /** An event after operation `i` carried the value `v`. */
  ghost predicate Confirmed(ops: seq<Op>, i: int, key: Key, v: Val) {
    exists j :: 0 <= i < j < |ops| && ops[j].Event? && ops[j].key == key && ops[j].value == v
  }

  /** Operations happen one after the other, up to `now`. */
  ghost predicate Chronological(ops: seq<Op>, now: int) {
    && (forall i :: 0 <= i < |ops| ==> INIT_TIME < ops[i].at <= now)
    && (forall i, j :: 0 <= i < j < |ops| ==> ops[i].at <= ops[j].at)
  }

  lemma StepSends(sends: Sends, op: Op, key: Key)
    ensures var v := SentBy(op, key);
      v.Some? ==> key in Step(sends, op) && Step(sends, op)[key] == Entry(v.value, op.at)
    ensures SentBy(op, key).None? && !op.Event? && !op.Read? ==>
      (key in Step(sends, op) <==> key in sends) && (key in sends ==> Step(sends, op)[key] == sends[key])
  {
    hide ConvertCombined;
  }

  lemma NothingRun()
    ensures Run([]) == map[]
  {
  }

  lemma RunUnfolds(ops: seq<Op>)
    requires ops != []
    ensures Run(ops) == Step(Run(ops[..|ops| - 1]), ops[|ops| - 1])
  {
  }

  /** The operation leaves an entry of `v` sent at `at` alone: it is no read or event of the data point, or it finds the
      entry fresh and does not confirm its value. */
  predicate Spares(op: Op, key: Key, v: Val, at: int) {
    (op.Event? || op.Read?) && op.key == key ==>
      ChangedWithin(at, op.at, STORE_TIMEOUT) && (op.Event? && v != Null ==> op.value != v)
  }

  /** No operation after `i` drops the value sent by it. */
  ghost predicate Spared(ops: seq<Op>, i: nat, key: Key, v: Val)
    requires i < |ops|
  {
    forall j :: i < j < |ops| ==> Spares(ops[j], key, v, ops[i].at)
  }

  lemma StepSpares(sends: Sends, op: Op, key: Key)
    requires SentBy(op, key).None?
    ensures key in Step(sends, op) ==> key in sends && Step(sends, op)[key] == sends[key]
    ensures key in sends ==>
      (key in Step(sends, op) <==> Spares(op, key, sends[key].value, sends[key].sentAt))
  {
    hide ConvertCombined, ChangedWithin;
  }

  /** What the cache holds after any run, whatever the clock does: the last value sent, unless an operation since has
      dropped it. */
  lemma {:induction false} HeldIff(ops: seq<Op>, key: Key)
    ensures var i := LastSent(ops, key);
      && (key in Run(ops) ==> i >= 0 && Run(ops)[key] == Entry(SentBy(ops[i], key).value, ops[i].at))
      && (i >= 0 ==> (key in Run(ops) <==> Spared(ops, i, key, SentBy(ops[i], key).value)))
  {
    hide SentBy, Step, Run, Spares;
    if ops != [] {
      var n := |ops| - 1;
      var front, op := ops[..n], ops[n];
      RunUnfolds(ops);
      StepSends(Run(front), op, key);
      var i := LastSent(ops, key);
      if i != n {
        assert LastSent(front, key) == i;
        HeldIff(front, key);
        StepSpares(Run(front), op, key);
        assert forall j :: 0 <= j < n ==> front[j] == ops[j];
      }
    } else {
      NothingRun();
    }
  }

  /** What the cache knows of a data point within a day of the last send: nothing if no value was ever sent; else the
      last value sent, unless an event confirmed it or it was found too old. */
  lemma Remembered(ops: seq<Op>, now: int, key: Key)
    requires Chronological(ops, now)
    requires LastSent(ops, key) >= 0 ==> now < ops[LastSent(ops, key)].at + DAY
    ensures var i := LastSent(ops, key);
      if i < 0 then key !in Run(ops) else
        var v, at := SentBy(ops[i], key).value, ops[i].at;
        if key in Run(ops) then Run(ops)[key] == Entry(v, at) && (v != Null ==> !Confirmed(ops, i, key, v))
        else (v != Null && Confirmed(ops, i, key, v)) || now >= at + STORE_TIMEOUT * SECOND
  {
    hide SentBy, Run, ChangedWithin, LastSent;
    HeldIff(ops, key);
    var i := LastSent(ops, key);
    if i >= 0 && key !in Run(ops) {
      var v, at := SentBy(ops[i], key).value, ops[i].at;
      var j :| i < j < |ops| && !Spares(ops[j], key, v, at);
      WithinADay(ops[j].at, at, STORE_TIMEOUT);
    }
  }

  /** `get_last_value_send` answers `v` exactly when `v` is the last value sent for the data point, its age counts as
      less than a minute, and no read or event of the data point since has found it too old or carried it. */
  lemma AnswerIff(ops: seq<Op>, now: int, key: Key, v: Val)
    requires v != Null
    ensures ReadValue(Run(ops), key, now) == v <==>
      var i := LastSent(ops, key);
      i >= 0 && SentBy(ops[i], key) == Some(v) && ChangedWithin(ops[i].at, now, 60) && Spared(ops, i, key, v)
  {
    hide SentBy, Run, ChangedWithin, Spared, LastSent;
    HeldIff(ops, key);
  }

  /** What the answer is meant to be: `v` is the last value sent, was sent less than a minute ago, and no event has
      carried that value since. */
  ghost predicate Unconfirmed(ops: seq<Op>, now: int, key: Key, v: Val) {
    var i := LastSent(ops, key);
    && i >= 0 && SentBy(ops[i], key) == Some(v)
    && now < ops[i].at + 60 * SECOND
    && !Confirmed(ops, i, key, v)
  }

  /** When the answer is what it is meant to be: always, except that an entry nobody has dropped comes back to life when
      a day and less than a minute more have passed, and again each day after. */
  lemma RightIff(ops: seq<Op>, now: int, key: Key, v: Val)
    requires Chronological(ops, now) && v != Null
    ensures (ReadValue(Run(ops), key, now) == v <==> Unconfirmed(ops, now, key, v)) <==>
      var i := LastSent(ops, key);
      !(&& i >= 0 && SentBy(ops[i], key) == Some(v)
        && now >= ops[i].at + DAY && AgeSeconds(now, ops[i].at) < STORE_TIMEOUT
        && Spared(ops, i, key, v))
  {
    hide SentBy, Run, ChangedWithin, AgeSeconds, Spares, LastSent;
    AnswerIff(ops, now, key, v);
    var i := LastSent(ops, key);
    if i >= 0 && SentBy(ops[i], key) == Some(v) {
      var at := ops[i].at;
      AgeBeyondADay(now, at);
      if now < at + STORE_TIMEOUT * SECOND {
        forall j | i < j < |ops|
          ensures Spares(ops[j], key, v, at) <==> !(ops[j].Event? && ops[j].key == key && ops[j].value == v)
        {
          SparedWithin(ops[j], key, v, at);
        }
      }
    }
  }

  lemma AgeBeyondADay(now: int, at: int)
    requires INIT_TIME < at <= now
    ensures ChangedWithin(at, now, STORE_TIMEOUT) <==>
      now < at + STORE_TIMEOUT * SECOND || (now >= at + DAY && AgeSeconds(now, at) < STORE_TIMEOUT)
    ensures now < at + STORE_TIMEOUT * SECOND ==> now < at + DAY
  {
    if now < at + DAY {
      WithinADay(now, at, STORE_TIMEOUT);
    }
  }

  lemma SparedWithin(op: Op, key: Key, v: Val, at: int)
    requires INIT_TIME < at <= op.at < at + STORE_TIMEOUT * SECOND
    ensures v != Null ==> (Spares(op, key, v, at) <==> !(op.Event? && op.key == key && op.value == v))
  {
    WithinADay(op.at, at, STORE_TIMEOUT);
  }

  /** Within a day of the last send the answer is always what it is meant to be. */
  lemma UnconfirmedIff(ops: seq<Op>, now: int, key: Key, v: Val)
    requires Chronological(ops, now) && v != Null
    requires LastSent(ops, key) >= 0 ==> now < ops[LastSent(ops, key)].at + DAY
    ensures ReadValue(Run(ops), key, now) == v <==>
      var i := LastSent(ops, key);
      && i >= 0 && SentBy(ops[i], key) == Some(v)
      && now < ops[i].at + STORE_TIMEOUT * SECOND
      && !Confirmed(ops, i, key, v)
  {
    hide SentBy, Run, ReadValue, Confirmed, LastSent, Spared;
    RightIff(ops, now, key, v);
  }

  /** Beyond a day the answer can be wrong: a day and ten seconds later the value still counts as unconfirmed. */
  lemma StaleAfterADay(key: Key, v: Val, at: int)
    requires at > INIT_TIME && v != Null
    requires key.paramset == Values && !Convertable(key.parameter)
    ensures var ops := [Set(key.channel, key.parameter, v, at)];
      && Chronological(ops, at + DAY + 10 * SECOND)
      && ReadValue(Run(ops), key, at + DAY + 10 * SECOND) == v && !Unconfirmed(ops, at + DAY + 10 * SECOND, key, v)
  {
    var ops := [Set(key.channel, key.parameter, v, at)];
    assert ops[..0] == [];
    assert AgeSeconds(at + DAY + 10 * SECOND, at) == 10;
  }
}
