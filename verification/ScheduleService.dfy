/** The schedule services of a thermostat: copying a profile, and setting a weekday from simple spans. */
module ScheduleService {
  import opened Wrappers
  import opened ScheduleTime
  import opened Schedule
  import opened ScheduleCompiler
  import opened ScheduleMeaning
  import opened ScheduleValidator
  import opened ScheduleRaw

  /** A stored value on its way to the device: into the schedule and out again. */
  function Resend(k: Key, v: Value): Option<Value> {
    match Cook(k, v)
    case None => None
    case Some(cooked) => Uncook(k, cooked)
  }

  ghost predicate Sendable(flat: map<Key, Value>) {
    forall k <- flat :: Regular(k) && Resend(k, flat[k]).Some?
  }

  /** `raw` holds exactly the values of `flat` as the device expects them. */
  ghost predicate IsSent(flat: map<Key, Value>, raw: RawSchedule) {
    && (forall name <- raw :: exists k :: k in flat && name == RawName(k))
    && (forall k <- flat :: RawName(k) in raw && Some(raw[RawName(k)]) == Resend(k, flat[k]))
  }

  ghost predicate IsCooked(flat: map<Key, Value>, cooked: map<Key, Value>) {
    cooked.Keys == flat.Keys && forall k <- flat :: Some(cooked[k]) == Cook(k, flat[k])
  }

  lemma CookedIsSent(flat: map<Key, Value>, cooked: map<Key, Value>, raw: RawSchedule)
    requires IsCooked(flat, cooked)
    ensures Printable(cooked) <==> Sendable(flat)
    ensures IsPrinted(cooked, raw) <==> IsSent(flat, raw)
  {
    hide Cook, Uncook, RawName;
    forall k <- flat ensures Resend(k, flat[k]) == Uncook(k, cooked[k]) {
    }
  }

  /** The loops of `_set_schedule_profile`: every value of the program is added to an empty schedule. */
  method Rebuild(source: ScheduleData) returns (r: Option<ScheduleData>)
    ensures r.Some? <==> forall k <- Flat(source) :: Cook(k, Flat(source)[k]).Some?
    ensures r.Some? ==> IsCooked(Flat(source), Flat(r.value))
  {
    hide Flat, Cook, AddToSchedule, Keys;
    var data: ScheduleData := map[];
    FlatOfNothing();
    var todo := Keys(source);
    FlatKeys(source);
    ghost var flat := Flat(source);
    while todo != {}
      invariant todo <= flat.Keys
      invariant forall k :: k in Flat(data) <==> k in flat && k !in todo
      invariant forall k <- Flat(data) :: Some(Flat(data)[k]) == Cook(k, flat[k])
      decreases todo
    {
      var k :| k in todo;
      KeysHave(source, k);
      var value := source[k.profile][k.day][k.no][k.slotType];
      AddToScheduleFlat(data, k, value);
      var added := AddToSchedule(data, k, value);
      if added.None? {
        assert Cook(k, flat[k]).None?;
        return None;
      }
      data := added.value;
      todo := todo - {k};
    }
    assert Flat(data).Keys == flat.Keys;
    return Some(data);
  }

  /** `_set_schedule_profile` up to the call of the backend, without validation. */
  method SendProfile(profile: Profile, program: Program) returns (r: Option<RawSchedule>)
    ensures r.Some? <==> Sendable(Flat(map[profile := program]))
    ensures r.Some? ==> IsSent(Flat(map[profile := program]), r.value)
  {
    hide Flat, Cook, Uncook, RawName, Regular;
    ghost var flat := Flat(map[profile := program]);
    var data := Rebuild(map[profile := program]);
    if data.None? {
      assert exists k :: k in flat && Cook(k, flat[k]).None?;
      return None;
    }
    r := PrintSchedule(data.value);
    CookedIsSent(flat, Flat(data.value), if r.Some? then r.value else map[]);
  }

  /** One profile of a schedule seen under another profile's name. */
  lemma FlatRenamed(data: ScheduleData, source: Profile, target: Profile, k: Key)
    ensures var program := if source in data then data[source] else map[];
      && (k in Flat(map[target := program]) <==> k.profile == target && k.(profile := source) in Flat(data))
      && (k in Flat(map[target := program]) ==> Flat(map[target := program])[k] == Flat(data)[k.(profile := source)])
  {
    hide Flat;
    var program := if source in data then data[source] else map[];
    FlatHas(data, k.(profile := source));
    FlatHas(map[target := program], k);
  }

  lemma ResendCooked(k: Key, source: Key, v: Value)
    requires !v.StrV? && source.slotType == k.slotType && Cook(source, v).Some?
    ensures Resend(k, Cook(source, v).value) == Some(v)
  {
    hide MinutesToTime, TimeToMinutes;
    CookRoundTrip(source, v);
  }

  /** `copy_schedule_profile`: what is written is exactly the source profile's entries under the target's names. */
  method CopyProfile(params: RawSchedule, source: Profile, target: Profile, sameDevice: bool, sameGroup: bool)
    returns (r: Result<RawSchedule, Error>)
    requires Numeric(params)
    ensures r.Success? <==>
      sameGroup && !(sameDevice && source == target) && Readable(params, Some(source), None)
    ensures r.Failure? ==> r.error == if !sameGroup || (sameDevice && source == target) then NotAllowed else BadTime
    ensures r.Success? ==> forall name <- r.value ::
      exists k :: Regular(k) && k.profile == target && name == RawName(k) && RawName(k.(profile := source)) in params
    ensures r.Success? ==> forall k | Regular(k) && k.profile == target && RawName(k.(profile := source)) in params ::
      RawName(k) in r.value && r.value[RawName(k)] == params[RawName(k.(profile := source))]
  {
    hide Flat, RawName, Cook, Uncook, Resend;
    if !sameGroup || (sameDevice && source == target) {
      return Failure(NotAllowed);
    }
    var data := ReadSchedule(params, Some(source), None);
    if data.None? {
      return Failure(BadTime);
    }
    var program: Program := if source in data.value then data.value[source] else map[];
    ghost var flat := Flat(map[target := program]);
    forall k
      ensures k in flat <==> Regular(k) && k.profile == target && RawName(k.(profile := source)) in params
      ensures k in flat ==> Resend(k, flat[k]) == Some(params[RawName(k.(profile := source))])
    {
      FlatRenamed(data.value, source, target, k);
      if k in flat {
        ResendCooked(k, k.(profile := source), params[RawName(k.(profile := source))]);
      }
    }
    var raw := SendProfile(target, program);
    return Success(raw.value);
  }

  // ----- setting a weekday from simple spans

  /** What the device does with raw entries: at minute `t` the lowest-numbered slot from `no` on that ends later
      decides. */
  ghost function RawTemperatureAt(raw: RawSchedule, profile: Profile, day: Day, no: nat, t: nat): Option<Value>
    decreases LAST_SLOT + 1 - no
  {
    var end, temperature := RawName(Key(profile, day, no, EndTime)), RawName(Key(profile, day, no, Temperature));
    if no > LAST_SLOT || end !in raw || temperature !in raw || !raw[end].IntV? then None
    else if raw[end].n > t then Some(raw[temperature])
    else RawTemperatureAt(raw, profile, day, no + 1, t)
  }

  predicate Complete(weekday: Weekday) {
    && weekday.Keys == Numbers(LAST_SLOT)
    && forall no <- weekday :: weekday[no].Keys == {EndTime, Temperature} && SlotEnd(weekday[no]).Some? &&
         weekday[no][EndTime].StrV? && weekday[no][Temperature].FloatV?
  }

  lemma ResendSlot(k: Key, slot: Slot)
    requires k.slotType in slot && SlotEnd(slot).Some? && slot[EndTime].StrV?
    requires k.slotType.EndTime? || (k.slotType.Temperature? && slot[k.slotType].FloatV?)
    ensures Resend(k, slot[k.slotType]) ==
      Some(if k.slotType.EndTime? then IntV(SlotEnd(slot).value) else slot[k.slotType])
  {
    hide TimeToMinutes, MinutesToTime;
  }

  lemma FlatOfWeekday(profile: Profile, day: Day, weekday: Weekday, k: Key)
    ensures var flat := Flat(map[profile := map[day := weekday]]);
      && (k in flat <==> k.profile == profile && k.day == day && k.no in weekday && k.slotType in weekday[k.no])
      && (k in flat ==> flat[k] == weekday[k.no][k.slotType])
  {
    hide Flat;
    FlatHas(map[profile := map[day := weekday]], k);
  }

  lemma {:induction false} SentMeansSame(profile: Profile, day: Day, weekday: Weekday, raw: RawSchedule, no: nat,
                                        t: nat)
    requires 1 <= no && Complete(weekday) && IsSent(Flat(map[profile := map[day := weekday]]), raw)
    ensures RawTemperatureAt(raw, profile, day, no, t) == TemperatureAt(weekday, no, t)
    decreases LAST_SLOT + 1 - no
  {
    hide TimeToMinutes, RawName, Flat, Resend, Numbers, SlotEnd;
    if no <= LAST_SLOT {
      var end, temperature := Key(profile, day, no, EndTime), Key(profile, day, no, Temperature);
      assert no in weekday && weekday[no].Keys == {EndTime, Temperature};
      FlatOfWeekday(profile, day, weekday, end);
      FlatOfWeekday(profile, day, weekday, temperature);
      ResendSlot(end, weekday[no]);
      ResendSlot(temperature, weekday[no]);
      SentMeansSame(profile, day, weekday, raw, no + 1, t);
    }
  }

  lemma CompleteSends(profile: Profile, day: Day, weekday: Weekday)
    requires Complete(weekday)
    ensures Sendable(Flat(map[profile := map[day := weekday]]))
  {
    hide Flat, RawName, Resend, Numbers, SlotEnd;
    var flat := Flat(map[profile := map[day := weekday]]);
    forall k <- flat ensures Regular(k) && Resend(k, flat[k]).Some? {
      FlatOfWeekday(profile, day, weekday, k);
      assert k.no in weekday && weekday[k.no].Keys == {EndTime, Temperature};
      ResendSlot(k, weekday[k.no]);
    }
  }

  lemma CompiledIsComplete(range: Range, base: real, spans: seq<Span>)
    requires Convert(range, base, spans).Success?
    requires |Slots(range, base, spans)| <= LAST_SLOT
    ensures Complete(Convert(range, base, spans).value)
  {
    hide TimeToMinutes, SortedItems, Collapse, Numbered, FillUp, Numbers, Emit;
    var sorted, slots := SortedItems(Collapse(spans).value), Slots(range, base, spans);
    SortedSpans(Collapse(spans).value);
    EmittedRise(range, base, 0, sorted);
    EmittedTimed(range, base, 0, sorted);
    MidnightTimes();
    var weekday := Convert(range, base, spans).value;
    forall no ensures no in weekday <==> no in Numbers(LAST_SLOT) {
      FillUpAt(base, slots, no);
    }
    forall no <- weekday
      ensures weekday[no].Keys == {EndTime, Temperature} && SlotEnd(weekday[no]).Some?
      ensures weekday[no][EndTime].StrV? && weekday[no][Temperature].FloatV?
    {
      assert no in Numbers(LAST_SLOT);
      FillUpAt(base, slots, no);
    }
  }

  predicate Timed(slots: seq<Slot>) {
    forall i :: 0 <= i < |slots| ==>
      slots[i].Keys == {EndTime, Temperature} && slots[i][EndTime].StrV? && slots[i][Temperature].FloatV?
  }

  lemma {:induction false} EmittedTimed(range: Range, base: real, prev: nat, spans: seq<Span>)
    requires AllStartable(spans) && FirstFault(range, prev, spans).None?
    ensures Timed(Emit(range, base, prev, spans))
    decreases |spans|
  {
    hide TimeToMinutes;
    if spans != [] {
      EmittedTimed(range, base, EndOf(spans[0]), spans[1..]);
    }
  }

  /** At every minute of the day the device applies what the spans ask for, except behind the thirteenth boundary. */
  ghost predicate Follows(raw: RawSchedule, profile: Profile, day: Day, base: real, m: map<nat, Span>) {
    forall t: nat | t < 1440 ::
      match RawTemperatureAt(raw, profile, day, 1, t)
      case Some(v) => !Uncovered(m, t) && AskedFor(base, m, t, v)
      case None => Uncovered(m, t)
  }

  lemma SentFollows(range: Range, base: real, spans: seq<Span>, profile: Profile, day: Day, raw: RawSchedule)
    requires Convert(range, base, spans).Success?
    requires |Boundaries(Collapse(spans).value)| <= LAST_SLOT
    requires IsSent(Flat(map[profile := map[day := Convert(range, base, spans).value]]), raw)
    ensures Follows(raw, profile, day, base, Collapse(spans).value)
  {
    hide TimeToMinutes, Convert, Collapse, Slots, Boundaries, Flat, IsSent, Complete, RawTemperatureAt,
      TemperatureAt, Uncovered, AskedFor, Acceptable;
    var weekday := Convert(range, base, spans).value;
    AcceptedIffDisjoint(range, base, spans);
    SlotsPassed(range, base, spans, 0, 0);
    CompiledIsComplete(range, base, spans);
    CompiledMeaning(range, base, spans, 0);
    forall t: nat | t < 1440
      ensures match RawTemperatureAt(raw, profile, day, 1, t)
        case Some(v) => !Uncovered(Collapse(spans).value, t) && AskedFor(base, Collapse(spans).value, t, v)
        case None => Uncovered(Collapse(spans).value, t)
    {
      SentMeansSame(profile, day, weekday, raw, 1, t);
      CompiledMeaning(range, base, spans, t);
    }
  }

  /** `set_simple_schedule_profile_weekday` up to the call of the backend: it goes through exactly when conversion and
      validation do, and the entries sent then make the device follow the spans. */
  method SetSimpleWeekday(range: Range, base: real, spans: seq<Span>, profile: Profile, day: Day)
    returns (r: Result<RawSchedule, Error>)
    ensures r.Success? <==>
      Convert(range, base, spans).Success? && WeekdayFault(range, Convert(range, base, spans).value).None?
    ensures r.Success? ==> Follows(r.value, profile, day, base, Collapse(spans).value)
    ensures r.Failure? ==>
      r.error == if Convert(range, base, spans).Failure? then Convert(range, base, spans).error
                 else WeekdayFault(range, Convert(range, base, spans).value).value
    ensures r.Success? ==> IsSent(Flat(map[profile := map[day := Convert(range, base, spans).value]]), r.value)
  {
    hide TimeToMinutes, Convert, Collapse, Slots, Boundaries, WeekdayFault, Flat, IsSent, Sendable, Follows;
    var weekday := ConvertSimpleWeekday(range, base, spans);
    if weekday.Failure? {
      return Failure(weekday.error);
    }
    var fault := ValidateWeekday(range, weekday.value);
    if fault.Some? {
      return Failure(fault.value);
    }
    CompiledPassesIff(range, base, spans);
    SlotsPassed(range, base, spans, 0, 0);
    CompiledIsComplete(range, base, spans);
    CompleteSends(profile, day, weekday.value);
    var raw := SendProfile(profile, map[day := weekday.value]);
    SentFollows(range, base, spans, profile, day, raw.value);
    return Success(raw.value);
  }
}
