/** Compiling an unordered list of (start, end, temperature) spans over a base temperature into numbered slots. */
module ScheduleCompiler {
  import opened Wrappers
  import opened Numerals
  import opened ScheduleTime
  import opened Schedule

  datatype Span = Span(start: Option<string>, end: Option<string>, temperature: Option<real>)

  // ----- collapsing and sorting

  /** The dictionary from start minute to span: a later span replaces an earlier one with the same start. */
  function Collapse(spans: seq<Span>): (r: Result<map<nat, Span>, Error>)
    ensures r.Success? ==> WellKeyed(r.value)
  {
    if spans == [] then Success(map[]) else
    var last := spans[|spans| - 1];
    match Collapse(spans[..|spans| - 1])
    case Failure(e) => Failure(e)
    case Success(m) =>
      if last.start.None? then Failure(KeyMissing)
      else match TimeToMinutes(last.start.value)
        case None => Failure(BadTime)
        case Some(k) => Success(m[k := last])
  }

  predicate HasStart(span: Span, k: nat) { span.start.Some? && TimeToMinutes(span.start.value) == Some(k) }

  predicate WellKeyed(m: map<nat, Span>) { forall k <- m :: HasStart(m[k], k) }

  function MinKey(s: set<nat>): (k: nat)
    requires s != {}
    ensures k in s && forall j <- s :: k <= j
  {
    MinExists(s);
    var k :| IsMin(s, k);
    k
  }

  predicate IsMin(s: set<nat>, k: nat) { k in s && forall j <- s :: k <= j }

  lemma {:induction false} MinExists(s: set<nat>)
    requires s != {}
    ensures exists k :: IsMin(s, k)
  {
    var x :| x in s;
    if s == {x} {
      assert IsMin(s, x);
    } else {
      MinExists(s - {x});
      var y :| IsMin(s - {x}, y);
      assert forall j <- s :: j == x || j in s - {x};
      assert IsMin(s, if x <= y then x else y);
    }
  }

  predicate Ascending(keys: seq<nat>) { forall i, j :: 0 <= i < j < |keys| ==> keys[i] < keys[j] }

  function SortedKeys(s: set<nat>): (keys: seq<nat>)
    ensures Ascending(keys)
    ensures forall k :: k in keys <==> k in s
  {
    if s == {} then [] else
    var k := MinKey(s);
    assert s == {k} + (s - {k});
    [k] + SortedKeys(s - {k})
  }

  /** The values of a dictionary in ascending order of their keys. */
  function SortedItems(m: map<nat, Span>): (spans: seq<Span>)
  {
    var keys := SortedKeys(m.Keys);
    seq(|keys|, i requires 0 <= i < |keys| => m[keys[i]])
  }

  // ----- what the converter does with the sorted spans

  function StartOf(span: Span): nat
    requires Startable(span)
  {
    TimeToMinutes(span.start.value).value
  }

  predicate Startable(span: Span) { span.start.Some? && TimeToMinutes(span.start.value).Some? }

  predicate AllStartable(spans: seq<Span>) {
    forall i :: 0 <= i < |spans| ==> Startable(spans[i])
  }

  predicate Sorted(spans: seq<Span>) {
    && AllStartable(spans)
    && (forall i, j :: 0 <= i < j < |spans| ==> StartOf(spans[i]) < StartOf(spans[j]))
  }

  predicate Endable(span: Span) { Startable(span) && span.end.Some? && TimeToMinutes(span.end.value).Some? }

  function EndOf(span: Span): nat
    requires span.end.Some? && TimeToMinutes(span.end.value).Some?
  {
    TimeToMinutes(span.end.value).value
  }

  /** The first objection to one span, given the end of the span before it. */
  function SpanFault(range: Range, prev: nat, span: Span): Option<Error>
    requires Startable(span)
  {
    if span.end.None? then Some(EndMissing)
    else if span.temperature.None? then Some(TemperatureMissing)
    else if TimeToMinutes(span.end.value).None? then Some(BadTime)
    else if StartOf(span) >= EndOf(span) then Some(StartNotBeforeEnd)
    else if StartOf(span) < prev then Some(Overlap)
    else if !range.Has(span.temperature.value) then Some(TemperatureOutOfRange)
    else None
  }

  /** The first objection to a sorted list of spans. */
  function FirstFault(range: Range, prev: nat, spans: seq<Span>): Option<Error>
    requires AllStartable(spans)
    decreases |spans|
  {
    if spans == [] then None else
    match SpanFault(range, prev, spans[0])
    case Some(e) => Some(e)
    case None => FirstFault(range, EndOf(spans[0]), spans[1..])
  }

  /** The slots one span adds: a base-temperature slot up to its start if there is a gap, then its own. */
  function SpanSlots(base: real, prev: nat, span: Span): seq<Slot>
    requires Endable(span) && span.temperature.Some?
  {
    (if StartOf(span) > prev then [TimeSlot(span.start.value, base)] else []) +
    [TimeSlot(span.end.value, span.temperature.value)]
  }

  /** The slots of an accepted sorted list of spans. */
  function Emit(range: Range, base: real, prev: nat, spans: seq<Span>): seq<Slot>
    requires AllStartable(spans)
    requires FirstFault(range, prev, spans).None?
    decreases |spans|
  {
    if spans == [] then [] else SpanSlots(base, prev, spans[0]) + Emit(range, base, EndOf(spans[0]), spans[1..])
  }

  function Numbers(n: nat): (s: set<int>)
    ensures forall no :: no in s <==> 1 <= no <= n
  {
    if n == 0 then {} else Numbers(n - 1) + {n}
  }

  /** Slots numbered from 1. */
  function Numbered(slots: seq<Slot>): Weekday {
    map no | no in Numbers(|slots|) :: slots[no - 1]
  }

  /** `_fillup_weekday_data` */
  function FillUp(base: real, weekday: Weekday): Weekday {
    map no | no in weekday.Keys + Numbers(LAST_SLOT) :: if no in weekday then weekday[no] else TimeSlot(MAX_TIME, base)
  }

  /** The whole conversion as a function of the spans. */
  function Convert(range: Range, base: real, spans: seq<Span>): Result<Weekday, Error> {
    if !range.Has(base) then Failure(BaseOutOfRange) else
    match Collapse(spans)
    case Failure(e) => Failure(e)
    case Success(m) =>
      SortedSpans(m);
      match FirstFault(range, 0, SortedItems(m))
      case Some(e) => Failure(e)
      case None => Success(FillUp(base, Numbered(Emit(range, base, 0, SortedItems(m)))))
  }

  /** Sorting keeps exactly the dictionary's spans, in strictly ascending order of start. */
  lemma SortedSpans(m: map<nat, Span>)
    requires WellKeyed(m)
    ensures Sorted(SortedItems(m))
    ensures forall span <- SortedItems(m) :: Startable(span) && StartOf(span) in m && m[StartOf(span)] == span
    ensures forall k <- m :: m[k] in SortedItems(m)
  {
    hide TimeToMinutes, SortedKeys;
    var keys, items := SortedKeys(m.Keys), SortedItems(m);
    forall i | 0 <= i < |items| ensures HasStart(items[i], keys[i]) {
      assert keys[i] in m;
    }
    forall k <- m ensures m[k] in items {
      var i :| 0 <= i < |keys| && keys[i] == k;
      assert items[i] == m[k];
    }
  }

  // ----- the converter

  /** `slots` have been emitted and `rest` is still to come, after a span ending at `prev`. */
  ghost predicate Progress(range: Range, base: real, all: seq<Span>, slots: seq<Slot>, prev: nat, rest: seq<Span>)
    requires AllStartable(all)
  {
    && AllStartable(rest)
    && FirstFault(range, 0, all) == FirstFault(range, prev, rest)
    && (FirstFault(range, 0, all).None? ==> Emit(range, base, 0, all) == slots + Emit(range, base, prev, rest))
  }

  lemma ProgressStart(range: Range, base: real, all: seq<Span>)
    requires AllStartable(all)
    ensures Progress(range, base, all, [], 0, all)
  {
    hide FirstFault, Emit;
    assert FirstFault(range, 0, all).None? ==> [] + Emit(range, base, 0, all) == Emit(range, base, 0, all);
  }

  lemma ProgressStep(range: Range, base: real, all: seq<Span>, slots: seq<Slot>, prev: nat, rest: seq<Span>)
    requires AllStartable(all) && rest != []
    requires Progress(range, base, all, slots, prev, rest)
    requires SpanFault(range, prev, rest[0]).None?
    ensures Progress(range, base, all, slots + SpanSlots(base, prev, rest[0]), EndOf(rest[0]), rest[1..])
  {
    hide TimeToMinutes, SpanSlots, FirstFault, Emit;
    OneSpan(range, base, prev, rest);
    if FirstFault(range, 0, all).None? {
      var tail := Emit(range, base, EndOf(rest[0]), rest[1..]);
      assert slots + (SpanSlots(base, prev, rest[0]) + tail) == slots + SpanSlots(base, prev, rest[0]) + tail;
    }
  }

  lemma OneSpan(range: Range, base: real, prev: nat, rest: seq<Span>)
    requires AllStartable(rest) && rest != [] && SpanFault(range, prev, rest[0]).None?
    ensures FirstFault(range, prev, rest) == FirstFault(range, EndOf(rest[0]), rest[1..])
    ensures FirstFault(range, prev, rest).None? ==>
      Emit(range, base, prev, rest) == SpanSlots(base, prev, rest[0]) + Emit(range, base, EndOf(rest[0]), rest[1..])
  {
    hide TimeToMinutes, SpanSlots;
  }

  /** The fault of the next span is the first fault of all. */
  lemma ProgressFault(range: Range, base: real, all: seq<Span>, slots: seq<Slot>, prev: nat, rest: seq<Span>)
    requires AllStartable(all) && rest != []
    requires Progress(range, base, all, slots, prev, rest)
    ensures SpanFault(range, prev, rest[0]).Some? ==> FirstFault(range, 0, all) == SpanFault(range, prev, rest[0])
  {
    hide TimeToMinutes, SpanSlots, Emit, SpanFault;
  }

  lemma ProgressEnd(range: Range, base: real, all: seq<Span>, slots: seq<Slot>, prev: nat)
    requires AllStartable(all) && Progress(range, base, all, slots, prev, [])
    ensures FirstFault(range, 0, all).None? && Emit(range, base, 0, all) == slots
  {
    hide TimeToMinutes, SpanSlots;
  }

  lemma NumberedNothing()
    ensures Numbered([]) == map[]
  {
  }

  lemma NumberedAppend(slots: seq<Slot>, slot: Slot)
    ensures Numbered(slots)[|slots| + 1 := slot] == Numbered(slots + [slot])
  {
    var all := slots + [slot];
    forall no | no in Numbers(|all|) ensures (if no == |slots| + 1 then slot else Numbered(slots)[no]) == all[no - 1] {
    }
  }

  method ConvertSimpleWeekday(range: Range, base: real, spans: seq<Span>) returns (r: Result<Weekday, Error>)
    ensures r == Convert(range, base, spans)
  {
    hide TimeToMinutes, FillUp, SortedItems, Collapse, Numbered, FirstFault, Emit, Progress, TimeSlot;
    NumberedNothing();
    if !range.Has(base) {
      return Failure(BaseOutOfRange);
    }
    var dict := Collapse(spans);
    if dict.Failure? {
      return Failure(dict.error);
    }
    var sorted := SortedItems(dict.value);
    SortedSpans(dict.value);
    var weekday: Weekday := map[];
    var previousEnd := MIN_TIME;
    var no := 1;
    ghost var slots: seq<Slot> := [];
    assert TimeToMinutes(MIN_TIME) == Some(0) by { MidnightTimes(); }
    ProgressStart(range, base, sorted);
    for i := 0 to |sorted|
      invariant TimeToMinutes(previousEnd).Some?
      invariant no == |slots| + 1 && weekday == Numbered(slots)
      invariant Progress(range, base, sorted, slots, TimeToMinutes(previousEnd).value, sorted[i..])
    {
      var span := sorted[i];
      ghost var prev := TimeToMinutes(previousEnd).value;
      assert sorted[i..][0] == span && sorted[i..][1..] == sorted[i + 1..];
      ProgressFault(range, base, sorted, slots, prev, sorted[i..]);
      if span.end.None? {
        return Failure(EndMissing);
      }
      if span.temperature.None? {
        return Failure(TemperatureMissing);
      }
      var start, end := TimeToMinutes(span.start.value), TimeToMinutes(span.end.value);
      if end.None? {
        return Failure(BadTime);
      }
      var previous := TimeToMinutes(previousEnd);
      if start.value >= end.value {
        return Failure(StartNotBeforeEnd);
      }
      if start.value < previous.value {
        return Failure(Overlap);
      }
      if !range.Has(span.temperature.value) {
        return Failure(TemperatureOutOfRange);
      }
      ghost var before := slots;
      if start.value > previous.value {
        NumberedAppend(slots, TimeSlot(span.start.value, base));
        weekday := weekday[no := TimeSlot(span.start.value, base)];
        no := no + 1;
        slots := slots + [TimeSlot(span.start.value, base)];
      }
      NumberedAppend(slots, TimeSlot(span.end.value, span.temperature.value));
      weekday := weekday[no := TimeSlot(span.end.value, span.temperature.value)];
      previousEnd := span.end.value;
      no := no + 1;
      slots := slots + [TimeSlot(span.end.value, span.temperature.value)];
      assert slots == before + SpanSlots(base, prev, span);
      ProgressStep(range, base, sorted, before, prev, sorted[i..]);
    }
    assert sorted[|sorted|..] == [];
    ProgressEnd(range, base, sorted, slots, TimeToMinutes(previousEnd).value);
    weekday := FillUpWeekday(base, weekday);
    return Success(weekday);
  }

  /** The loop of `_fillup_weekday_data`. */
  method FillUpWeekday(base: real, weekday: Weekday) returns (filled: Weekday)
    ensures filled == FillUp(base, weekday)
  {
    filled := weekday;
    for no := 1 to LAST_SLOT + 1
      invariant filled.Keys == weekday.Keys + Numbers(no - 1)
      invariant forall n <- filled :: filled[n] == if n in weekday then weekday[n] else TimeSlot(MAX_TIME, base)
    {
      if no !in filled {
        filled := filled[no := TimeSlot(MAX_TIME, base)];
      }
    }
  }

  lemma MidnightTimes()
    ensures TimeToMinutes(MIN_TIME) == Some(0)
    ensures TimeToMinutes(MAX_TIME) == Some(1440)
  {
    assert Print2(0, 10) + ":" + Print2(0, 10) == MIN_TIME;
    TimeRoundTrip(0);
    Print2TwoDigits(24);
    assert Print2(24, 10) + ":" + Print2(0, 10) == MAX_TIME;
    TimeRoundTrip(1440);
  }
}
