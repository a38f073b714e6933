/** Checking a weekday of a schedule before it is sent to the thermostat. */
module ScheduleValidator {
  import opened Wrappers
  import opened ScheduleTime
  import opened Schedule
  import opened ScheduleCompiler
  import opened ScheduleMeaning

  const FIRST_CHECKED := 1
  const LAST_CHECKED := 12
  const MAX_MINUTES := 1440

  /** The first objection to one slot, given the end of the slot before it. */
  function SlotFault(range: Range, previous: nat, slot: Slot): Option<Error> {
    if EndTime !in slot then Some(TypeMissing)
    else if Temperature !in slot then Some(KeyMissing)
    else match TemperatureOf(slot[Temperature])
      case None => Some(BadTemperature)
      case Some(x) =>
        if !range.Has(x) then Some(TemperatureOutOfRange) else
        match MinutesOf(slot[EndTime])
        case None => Some(BadTime)
        case Some(end) =>
          if end == 0 then None
          else if end > MAX_MINUTES then Some(TimeOutOfRange)
          else if end < previous then Some(NotRising)
          else None
  }

  /** The first objection to the slots from `no` to the twelfth. */
  function SlotsFault(range: Range, previous: nat, weekday: Weekday, no: nat): Option<Error>
    decreases LAST_CHECKED + 1 - no
  {
    if no > LAST_CHECKED then None
    else if no !in weekday then Some(SlotMissing)
    else match SlotFault(range, previous, weekday[no])
      case Some(e) => Some(e)
      case None => SlotsFault(range, SlotEnd(weekday[no]).value, weekday, no + 1)
  }

  function WeekdayFault(range: Range, weekday: Weekday): Option<Error> {
    if |weekday| != LAST_SLOT then Some(WrongSlotCount) else SlotsFault(range, 0, weekday, FIRST_CHECKED)
  }

  /** `_validate_schedule_profile_weekday`: every slot is looked at once per slot type, as hahomematic does. */
  method ValidateWeekday(range: Range, weekday: Weekday) returns (fault: Option<Error>)
    ensures fault == WeekdayFault(range, weekday)
  {
    hide TimeToMinutes;
    if |weekday| != LAST_SLOT {
      return Some(WrongSlotCount);
    }
    var previous := 0;
    for no := FIRST_CHECKED to LAST_CHECKED + 1
      invariant previous >= 0
      invariant SlotsFault(range, previous, weekday, no) == SlotsFault(range, 0, weekday, FIRST_CHECKED)
    {
      if no !in weekday {
        return Some(SlotMissing);
      }
      var slot := weekday[no];
      var types := [EndTime, Temperature];
      ghost var before := previous;
      for k := 0 to 2
        invariant k > 0 ==> SlotFault(range, before, slot).None?
        invariant previous == if k == 0 then before else SlotEnd(slot).value
      {
        if types[k] !in slot {
          return Some(TypeMissing);
        }
        if Temperature !in slot {
          return Some(KeyMissing);
        }
        var temperature := TemperatureOf(slot[Temperature]);
        if temperature.None? {
          return Some(BadTemperature);
        }
        if !range.Has(temperature.value) {
          return Some(TemperatureOutOfRange);
        }
        var end := MinutesOf(slot[EndTime]);
        if end.None? {
          return Some(BadTime);
        }
        if end.value != 0 {
          if end.value > MAX_MINUTES {
            return Some(TimeOutOfRange);
          }
          if end.value < previous {
            return Some(NotRising);
          }
        }
        previous := end.value;
      }
    }
    return None;
  }

  // ----- what the validator guarantees

  ghost predicate Sound(range: Range, weekday: Weekday, no: nat) {
    && no in weekday && Temperature in weekday[no]
    && TemperatureOf(weekday[no][Temperature]).Some?
    && range.min <= TemperatureOf(weekday[no][Temperature]).value <= range.max
    && SlotEnd(weekday[no]).Some? && SlotEnd(weekday[no]).value <= MAX_MINUTES
  }

  /** A slot may not end before the one before it, unless it ends at midnight (00:00). */
  ghost predicate InOrder(weekday: Weekday, no: nat)
    requires no > 0
  {
    no - 1 in weekday && no in weekday && SlotEnd(weekday[no - 1]).Some? && SlotEnd(weekday[no]).Some? &&
    (SlotEnd(weekday[no]).value == 0 || SlotEnd(weekday[no - 1]).value <= SlotEnd(weekday[no]).value)
  }

  lemma {:induction false} SlotsFaultIff(range: Range, weekday: Weekday, no: nat)
    requires FIRST_CHECKED < no <= LAST_CHECKED + 1
    requires Sound(range, weekday, no - 1)
    ensures SlotsFault(range, SlotEnd(weekday[no - 1]).value, weekday, no).None? <==>
      forall k: nat | no <= k <= LAST_CHECKED :: Sound(range, weekday, k) && InOrder(weekday, k)
    decreases LAST_CHECKED + 1 - no
  {
    hide TimeToMinutes;
    if no <= LAST_CHECKED {
      if Sound(range, weekday, no) && InOrder(weekday, no) {
        SlotsFaultIff(range, weekday, no + 1);
      }
    }
  }

  /** Exactly the weekdays that pass: thirteen slots, the first twelve of them readable and in range, neighbours in
      order. The thirteenth slot is not looked at. */
  lemma ValidatorAccepts(range: Range, weekday: Weekday)
    ensures WeekdayFault(range, weekday).None? <==>
      && |weekday| == LAST_SLOT
      && (forall no: nat | FIRST_CHECKED <= no <= LAST_CHECKED :: Sound(range, weekday, no))
      && (forall no: nat | FIRST_CHECKED < no <= LAST_CHECKED :: InOrder(weekday, no))
  {
    hide TimeToMinutes;
    if |weekday| == LAST_SLOT && Sound(range, weekday, FIRST_CHECKED) {
      SlotsFaultIff(range, weekday, FIRST_CHECKED + 1);
    }
  }

  /** What an objection to a slot says of it, the slot before it having ended at `previous`. */
  predicate SlotBlames(range: Range, previous: nat, slot: Slot, e: Error) {
    match e
    case TypeMissing => EndTime !in slot
    case KeyMissing => EndTime in slot && Temperature !in slot
    case BadTemperature => Temperature in slot && TemperatureOf(slot[Temperature]).None?
    case TemperatureOutOfRange =>
      && Temperature in slot && TemperatureOf(slot[Temperature]).Some?
      && !(range.min <= TemperatureOf(slot[Temperature]).value <= range.max)
    case BadTime => EndTime in slot && SlotEnd(slot).None?
    case TimeOutOfRange => SlotEnd(slot).Some? && SlotEnd(slot).value > 1440
    case NotRising => SlotEnd(slot).Some? && 0 < SlotEnd(slot).value < previous
    case _ => false
  }

  /** The minute at which the slot before ended. */
  function PreviousEnd(weekday: Weekday, no: nat): nat {
    if no > 1 && no - 1 in weekday && SlotEnd(weekday[no - 1]).Some? then SlotEnd(weekday[no - 1]).value else 0
  }

  /** Slot `no` is the first that is missing or at fault. */
  ghost predicate FaultySlot(range: Range, weekday: Weekday, no: nat, e: Error) {
    && 1 <= no <= 12
    && (forall k: nat | 1 <= k < no :: Sound(range, weekday, k))
    && (forall k: nat | 1 < k < no :: InOrder(weekday, k))
    && if no !in weekday then e == SlotMissing
       else SlotBlames(range, PreviousEnd(weekday, no), weekday[no], e)
  }

  lemma {:induction false} SlotsFaultIs(range: Range, weekday: Weekday, no: nat)
    requires FIRST_CHECKED <= no <= LAST_CHECKED + 1
    requires forall k: nat | 1 <= k < no :: Sound(range, weekday, k)
    requires forall k: nat | 1 < k < no :: InOrder(weekday, k)
    ensures var previous := PreviousEnd(weekday, no);
      SlotsFault(range, previous, weekday, no).Some? ==>
        exists k: nat :: FaultySlot(range, weekday, k, SlotsFault(range, previous, weekday, no).value)
    decreases LAST_CHECKED + 1 - no
  {
    hide TimeToMinutes, FloatOf;
    if no <= LAST_CHECKED {
      var previous := PreviousEnd(weekday, no);
      if no in weekday && SlotFault(range, previous, weekday[no]).None? {
        assert no > 1 ==> Sound(range, weekday, no - 1);
        assert Sound(range, weekday, no) && (no > 1 ==> InOrder(weekday, no));
        SlotsFaultIs(range, weekday, no + 1);
      } else if no in weekday {
        assert FaultySlot(range, weekday, no, SlotFault(range, previous, weekday[no]).value);
      } else {
        assert FaultySlot(range, weekday, no, SlotMissing);
      }
    }
  }

  /** Why a weekday is refused: its number of slots, or else the first slot at fault, with what is wrong with it. */
  lemma WeekdayRefusedBecause(range: Range, weekday: Weekday)
    requires WeekdayFault(range, weekday).Some?
    ensures var e := WeekdayFault(range, weekday).value;
      if |weekday| != 13 then e == WrongSlotCount else exists no: nat :: FaultySlot(range, weekday, no, e)
  {
    hide SlotsFault, FaultySlot;
    if |weekday| == LAST_SLOT {
      SlotsFaultIs(range, weekday, FIRST_CHECKED);
    }
  }

  /** The thirteen slots end at times that never fall. */
  ghost predicate Rises(weekday: Weekday) {
    && (forall no: nat | 1 <= no <= LAST_SLOT :: no in weekday && SlotEnd(weekday[no]).Some?)
    && (forall i: nat, j: nat | 1 <= i <= j <= LAST_SLOT :: SlotEnd(weekday[i]).value <= SlotEnd(weekday[j]).value)
  }

  /** A slot ending at 00:00 directly after one that ends later. */
  predicate Resets(weekday: Weekday, no: nat)
    requires no > 0
  {
    && no - 1 in weekday && no in weekday && SlotEnd(weekday[no - 1]).Some?
    && SlotEnd(weekday[no]) == Some(0) && SlotEnd(weekday[no - 1]).value > 0
  }

  /** The thirteenth slot, which is not looked at, is there and ends no earlier than the twelfth. */
  predicate LastFollows(weekday: Weekday) {
    && LAST_CHECKED in weekday && LAST_SLOT in weekday
    && SlotEnd(weekday[LAST_CHECKED]).Some? && SlotEnd(weekday[LAST_SLOT]).Some?
    && SlotEnd(weekday[LAST_CHECKED]).value <= SlotEnd(weekday[LAST_SLOT]).value
  }

  lemma {:induction false} RisingBetween(weekday: Weekday, i: nat, j: nat)
    requires 1 <= i <= j <= LAST_SLOT
    requires forall no: nat | 1 <= no <= LAST_SLOT :: no in weekday && SlotEnd(weekday[no]).Some?
    requires forall no: nat | 1 < no <= LAST_SLOT :: SlotEnd(weekday[no - 1]).value <= SlotEnd(weekday[no]).value
    ensures SlotEnd(weekday[i]).value <= SlotEnd(weekday[j]).value
    decreases j - i
  {
    hide SlotEnd;
    if i < j {
      RisingBetween(weekday, i, j - 1);
    }
  }

  /** An accepted weekday has rising end times exactly if no slot up to the twelfth resets to 00:00 after a later end,
      and the thirteenth slot is there, readable and ends no earlier than the twelfth. */
  lemma AcceptedRisesIff(range: Range, weekday: Weekday)
    requires WeekdayFault(range, weekday).None?
    ensures Rises(weekday) <==>
      (forall no: nat | FIRST_CHECKED < no <= LAST_CHECKED :: !Resets(weekday, no)) && LastFollows(weekday)
  {
    hide TimeToMinutes, SlotEnd, WeekdayFault;
    ValidatorAccepts(range, weekday);
    if (forall no: nat | FIRST_CHECKED < no <= LAST_CHECKED :: !Resets(weekday, no)) && LastFollows(weekday) {
      forall no: nat | 1 <= no <= LAST_SLOT ensures no in weekday && SlotEnd(weekday[no]).Some? {
        assert no <= LAST_CHECKED ==> Sound(range, weekday, no);
      }
      forall no: nat | 1 < no <= LAST_SLOT ensures SlotEnd(weekday[no - 1]).value <= SlotEnd(weekday[no]).value {
        assert no <= LAST_CHECKED ==> InOrder(weekday, no) && !Resets(weekday, no);
      }
      forall i: nat, j: nat | 1 <= i <= j <= LAST_SLOT
        ensures SlotEnd(weekday[i]).value <= SlotEnd(weekday[j]).value
      {
        RisingBetween(weekday, i, j);
      }
    }
    if Rises(weekday) {
      forall no: nat | FIRST_CHECKED < no <= LAST_CHECKED ensures !Resets(weekday, no) {
        assert SlotEnd(weekday[no - 1]).value <= SlotEnd(weekday[no]).value;
      }
    }
  }

  /** A weekday whose slots end at 24:00, but for slot `odd`, which ends at 00:00. */
  function MidnightWeekday(odd: nat): Weekday {
    map no | no in Numbers(LAST_SLOT) :: TimeSlot(if no == odd then MIN_TIME else MAX_TIME, 20.0)
  }

  lemma MidnightSlot(odd: nat, no: int)
    ensures no in MidnightWeekday(odd) <==> 1 <= no <= LAST_SLOT
    ensures 1 <= no <= LAST_SLOT ==>
      && Temperature in MidnightWeekday(odd)[no] && MidnightWeekday(odd)[no][Temperature] == FloatV(20.0)
      && SlotEnd(MidnightWeekday(odd)[no]) == Some(if no == odd then 0 else MAX_MINUTES)
  {
    hide TimeToMinutes;
    MidnightTimes();
  }

  lemma MidnightSize(odd: nat)
    ensures |MidnightWeekday(odd)| == LAST_SLOT
  {
    hide Numbers;
    NumbersSize(LAST_SLOT);
    assert MidnightWeekday(odd).Keys == Numbers(LAST_SLOT);
  }

  /** Accepted weekdays can fall: at any slot from the second to the twelfth, and at the thirteenth. */
  lemma AcceptedMayFall(odd: nat)
    requires 2 <= odd <= LAST_SLOT
    ensures WeekdayFault(Range(5.0, 30.5), MidnightWeekday(odd)).None? && !Rises(MidnightWeekday(odd))
    ensures Resets(MidnightWeekday(odd), odd)
    ensures forall no: nat | 1 < no <= LAST_SLOT && no != odd :: !Resets(MidnightWeekday(odd), no)
  {
    hide SlotEnd, MidnightWeekday, WeekdayFault, TimeToMinutes;
    var range, weekday := Range(5.0, 30.5), MidnightWeekday(odd);
    MidnightSize(odd);
    forall no: int { MidnightSlot(odd, no); }
    ValidatorAccepts(range, weekday);
    assert SlotEnd(weekday[odd - 1]).value > SlotEnd(weekday[odd]).value;
  }

  // ----- the compiler and the validator together

  lemma {:induction false} NumbersSize(n: nat)
    ensures |Numbers(n)| == n
  {
    if n > 0 {
      NumbersSize(n - 1);
    }
  }

  lemma FillUpSize(base: real, slots: seq<Slot>)
    ensures |FillUp(base, Numbered(slots))| == if |slots| > LAST_SLOT then |slots| else LAST_SLOT
  {
    hide TimeSlot, Numbers;
    var n := if |slots| > LAST_SLOT then |slots| else LAST_SLOT;
    NumbersSize(n);
    assert FillUp(base, Numbered(slots)).Keys == Numbers(n);
  }

  /** What the compiler produces passes the validator exactly if the spans have at most thirteen boundaries and none of
      the first twelve lies after 24:00; the order of the ends never fails it. */
  lemma CompiledPassesIff(range: Range, base: real, spans: seq<Span>)
    requires Convert(range, base, spans).Success?
    ensures var m := Collapse(spans).value;
      WeekdayFault(range, Convert(range, base, spans).value).None? <==>
        && |Boundaries(m)| <= LAST_SLOT
        && (|Passed(m, MAX_MINUTES)| >= LAST_CHECKED || Passed(m, MAX_MINUTES) == Boundaries(m))
  {
    hide TimeToMinutes, SortedItems, Collapse, FillUp, Numbered, SlotsFault, SlotFault, Emit, SlotEnd, WeekdayFault,
      Boundaries, Convert, Slots;
    AcceptedSlots(range, base, spans);
    var m := Collapse(spans).value;
    var sorted, slots := SortedItems(m), Slots(range, base, spans);
    EmittedRise(range, base, 0, sorted);
    FilledPassesIff(range, base, slots, LastEnd(0, sorted));
    var n := if |slots| < LAST_CHECKED then |slots| else LAST_CHECKED;
    SlotsPassed(range, base, spans, MAX_MINUTES, n);
    AllPassed(m, MAX_MINUTES);
    assert n > 0 ==> forall i :: 0 <= i < n ==> SlotEnd(slots[i]).value <= SlotEnd(slots[n - 1]).value;
  }

  lemma AllPassed(m: map<nat, Span>, t: nat)
    ensures |Passed(m, t)| >= |Boundaries(m)| <==> Passed(m, t) == Boundaries(m)
  {
    hide Boundaries;
    assert Boundaries(m) == Passed(m, t) + (Boundaries(m) - Passed(m, t));
  }

  /** A span that ends after 24:00 compiles, and what it compiles to is rejected. */
  lemma LateSpanRejected()
    ensures var range, spans := Range(5.0, 30.5), [Span(MinutesToTime(1440), MinutesToTime(1470), Some(20.0))];
      && Convert(range, 17.0, spans).Success?
      && WeekdayFault(range, Convert(range, 17.0, spans).value).Some?
  {
    hide TimeToMinutes, MinutesToTime, SortedItems, Collapse, SlotsFault, SlotFault, Emit, WeekdayFault, FillUp,
      Numbered;
    var range, span := Range(5.0, 30.5), Span(MinutesToTime(1440), MinutesToTime(1470), Some(20.0));
    TimeRoundTrip(1440);
    TimeRoundTrip(1470);
    SortedStays([span]);
    NoFaultIsChain(range, 0, [span]);
    EmittedRise(range, 17.0, 0, [span]);
    AcceptedSlots(range, 17.0, [span]);
    FilledPassesIff(range, 17.0, Slots(range, 17.0, [span]), 1470);
  }

  /** Fourteen hourly spans compile to fourteen slots, which are rejected. */
  lemma FourteenSlotsRejected()
    ensures var range, spans := Range(5.0, 30.5), Hours(0, 14);
      && Convert(range, 17.0, spans).Success?
      && WeekdayFault(range, Convert(range, 17.0, spans).value) == Some(WrongSlotCount)
  {
    hide TimeToMinutes, Hour, SortedItems, Collapse, SlotsFault, SlotFault, Emit, FillUp, Numbered, TimeSlot;
    var range, spans := Range(5.0, 30.5), Hours(0, 14);
    forall i: nat | i < 24 ensures Fine(range, Hour(i)) && StartOf(Hour(i)) == 60 * i && EndOf(Hour(i)) == 60 * i + 60 {
      HourTimes(i);
      assert Hour(i).temperature == Some(20.0) by { HourTemperature(i); }
    }
    SortedStays(spans);
    NoFaultIsChain(range, 0, spans);
    EmittedRise(range, 17.0, 0, spans);
    HoursNeed(0, 14);
    AcceptedSlots(range, 17.0, spans);
    FillUpSize(17.0, Slots(range, 17.0, spans));
  }

  lemma FilledSlot(range: Range, base: real, slots: seq<Slot>, end: nat, no: nat)
    requires Rising(0, end, slots) && Tempered(range, slots) && range.Has(base)
    requires FIRST_CHECKED <= no <= LAST_CHECKED
    ensures var weekday := FillUp(base, Numbered(slots));
      && (Sound(range, weekday, no) <==> no <= |slots| ==> SlotEnd(slots[no - 1]).value <= MAX_MINUTES)
      && no in weekday
      && SlotEnd(weekday[no]) == if no <= |slots| then SlotEnd(slots[no - 1]) else Some(MAX_MINUTES)
  {
    hide TimeToMinutes, FillUp, Numbered;
    FillUpAt(base, slots, no);
    MidnightTimes();
  }

  lemma FilledPassesIff(range: Range, base: real, slots: seq<Slot>, end: nat)
    requires Rising(0, end, slots) && Tempered(range, slots) && range.Has(base)
    ensures WeekdayFault(range, FillUp(base, Numbered(slots))).None? <==>
      && |slots| <= LAST_SLOT
      && forall i :: 0 <= i < |slots| && i < LAST_CHECKED ==> SlotEnd(slots[i]).value <= MAX_MINUTES
  {
    hide TimeToMinutes, FillUp, Numbered, Sound, SlotEnd, WeekdayFault;
    var weekday := FillUp(base, Numbered(slots));
    ValidatorAccepts(range, weekday);
    FillUpSize(base, slots);
    forall no: nat | FIRST_CHECKED <= no <= LAST_CHECKED { FilledSlot(range, base, slots, end, no); }
    if forall i :: 0 <= i < |slots| && i < LAST_CHECKED ==> SlotEnd(slots[i]).value <= MAX_MINUTES {
      assert forall no: nat | FIRST_CHECKED < no <= LAST_CHECKED :: InOrder(weekday, no);
    } else {
      var i :| 0 <= i < |slots| && i < LAST_CHECKED && SlotEnd(slots[i]).value > MAX_MINUTES;
      assert !Sound(range, weekday, i + 1);
    }
  }
}
