/** What the schedule compiler promises: which spans it accepts, and that the slots mean what the spans mean. */
module ScheduleMeaning {
  import opened Wrappers
  import opened ScheduleTime
  import opened Schedule
  import opened ScheduleCompiler

  // ----- the meaning of a set of spans

  predicate Covers(span: Span, t: int) {
    Endable(span) && StartOf(span) <= t < EndOf(span)
  }

  predicate Fine(range: Range, span: Span) {
    && Endable(span) && StartOf(span) < EndOf(span)
    && span.temperature.Some? && range.min <= span.temperature.value <= range.max
  }

  /** No minute lies in two spans. */
  ghost predicate Disjoint(m: map<nat, Span>) {
    forall j, k, t {:trigger Covers(m[j], t), Covers(m[k], t)} ::
      j in m && k in m && Covers(m[j], t) && Covers(m[k], t) ==> j == k
  }

  ghost predicate Acceptable(range: Range, base: real, m: map<nat, Span>) {
    range.min <= base <= range.max && (forall k <- m :: Fine(range, m[k])) && Disjoint(m)
  }

  // ----- the dictionary of spans

  /** Span `i` is the last of the list that starts at minute `k`. */
  ghost predicate IsLast(spans: seq<Span>, i: int, k: nat) {
    0 <= i < |spans| && HasStart(spans[i], k) && forall j :: i < j < |spans| ==> !HasStart(spans[j], k)
  }

  /** Each start minute keeps the last span given for it, and nothing else is kept. */
  lemma {:induction false} CollapseKeepsLast(spans: seq<Span>)
    ensures Collapse(spans).Success? <==> AllStartable(spans)
    ensures Collapse(spans).Success? ==> forall i, k :: IsLast(spans, i, k) ==>
      k in Collapse(spans).value && Collapse(spans).value[k] == spans[i]
    ensures Collapse(spans).Success? ==> forall k <- Collapse(spans).value :: exists i :: IsLast(spans, i, k)
  {
    hide TimeToMinutes;
    if spans != [] {
      var n := |spans| - 1;
      var front := spans[..n];
      CollapseKeepsLast(front);
      assert AllStartable(spans) <==> AllStartable(front) && Startable(spans[n]);
      if AllStartable(spans) {
        var m := Collapse(spans).value;
        forall i, k | IsLast(spans, i, k) ensures k in m && m[k] == spans[i] {
          if i < n {
            assert IsLast(front, i, k) && !HasStart(spans[n], k);
          }
        }
        forall k <- m ensures exists i :: IsLast(spans, i, k) {
          if HasStart(spans[n], k) {
            assert IsLast(spans, n, k);
          } else {
            var i :| IsLast(front, i, k);
            assert IsLast(spans, i, k);
          }
        }
      }
    }
  }

  /** The order in which spans with distinct starts are given does not matter. */
  lemma OrderIndependent(range: Range, base: real, a: seq<Span>, b: seq<Span>)
    requires multiset(a) == multiset(b)
    requires AllStartable(a)
    requires forall i, j :: 0 <= i < j < |a| ==> StartOf(a[i]) != StartOf(a[j])
    ensures Convert(range, base, a) == Convert(range, base, b)
  {
    hide TimeToMinutes;
    DistinctTransfers(a, b);
    CollapseKeepsLast(a);
    CollapseKeepsLast(b);
    var ma, mb := Collapse(a).value, Collapse(b).value;
    SameSpans(a, b, ma, mb);
    SameSpans(b, a, mb, ma);
    assert ma == mb;
  }

  lemma SameSpans(a: seq<Span>, b: seq<Span>, ma: map<nat, Span>, mb: map<nat, Span>)
    requires AllStartable(a) && AllStartable(b) && multiset(a) == multiset(b)
    requires forall i, j :: 0 <= i < j < |b| ==> StartOf(b[i]) != StartOf(b[j])
    requires Collapse(a) == Success(ma) && Collapse(b) == Success(mb)
    ensures forall k <- ma :: k in mb && mb[k] == ma[k]
  {
    hide TimeToMinutes;
    CollapseKeepsLast(a);
    CollapseKeepsLast(b);
    forall k <- ma ensures k in mb && mb[k] == ma[k] {
      var i :| IsLast(a, i, k);
      assert a[i] in multiset(b);
      var j :| 0 <= j < |b| && b[j] == a[i];
      assert IsLast(b, j, k);
    }
  }

  lemma DistinctTransfers(a: seq<Span>, b: seq<Span>)
    requires multiset(a) == multiset(b)
    requires AllStartable(a)
    requires forall i, j :: 0 <= i < j < |a| ==> StartOf(a[i]) != StartOf(a[j])
    ensures AllStartable(b)
    ensures forall i, j :: 0 <= i < j < |b| ==> StartOf(b[i]) != StartOf(b[j])
  {
    hide TimeToMinutes;
    forall i | 0 <= i < |b| ensures Startable(b[i]) {
      assert b[i] in multiset(a);
    }
    forall i, j | 0 <= i < j < |b| ensures StartOf(b[i]) != StartOf(b[j]) {
      assert b[i] in multiset(a) && b[j] in multiset(a);
      var x :| 0 <= x < |a| && a[x] == b[i];
      var y :| 0 <= y < |a| && a[y] == b[j];
      OneOccurrence(a, x);
      if x == y {
        TwoOccurrences(b, i, j);
        assert false;
      }
    }
  }

  lemma TwoOccurrences(b: seq<Span>, i: nat, j: nat)
    requires i < j < |b| && b[i] == b[j]
    ensures multiset(b)[b[i]] >= 2
  {
    assert b == b[..i] + [b[i]] + b[i + 1..j] + [b[j]] + b[j + 1..];
  }

  lemma OneOccurrence(a: seq<Span>, x: nat)
    requires x < |a| && forall i :: 0 <= i < |a| && i != x ==> a[i] != a[x]
    ensures multiset(a)[a[x]] == 1
  {
    assert a == a[..x] + [a[x]] + a[x + 1..];
  }

  // ----- acceptance

  /** The sorted spans form a chain: each is fine and starts no earlier than the one before it ends. */
  ghost predicate Chain(range: Range, prev: nat, spans: seq<Span>)
    requires AllStartable(spans)
  {
    && (forall i :: 0 <= i < |spans| ==> Fine(range, spans[i]) && prev <= StartOf(spans[i]))
    && (forall i, j :: 0 <= i < j < |spans| ==> EndOf(spans[i]) <= StartOf(spans[j]))
  }

  lemma {:induction false} NoFaultIsChain(range: Range, prev: nat, spans: seq<Span>)
    requires AllStartable(spans)
    ensures FirstFault(range, prev, spans).None? <==> Chain(range, prev, spans)
    decreases |spans|
  {
    hide TimeToMinutes;
    if spans != [] {
      if SpanFault(range, prev, spans[0]).None? {
        var rest := spans[1..];
        NoFaultIsChain(range, EndOf(spans[0]), rest);
        assert Chain(range, EndOf(spans[0]), rest) <==> Chain(range, prev, spans) by {
          if Chain(range, EndOf(spans[0]), rest) {
            assert forall i :: 0 < i < |spans| ==> spans[i] == rest[i - 1];
          }
          if Chain(range, prev, spans) {
            assert forall i :: 0 <= i < |rest| ==> rest[i] == spans[i + 1];
          }
        }
      } else {
        assert !(Fine(range, spans[0]) && prev <= StartOf(spans[0]));
      }
    }
  }

  /** The spans accepted: base and temperatures in range, every span non-empty, no two overlapping. Neither the order of
      the list nor anything else matters. */
  lemma AcceptedIffDisjoint(range: Range, base: real, spans: seq<Span>)
    ensures Convert(range, base, spans).Success? <==>
      Collapse(spans).Success? && Acceptable(range, base, Collapse(spans).value)
  {
    hide TimeToMinutes, SortedItems, Collapse, Chain, Fine, Disjoint, FirstFault, Emit, FillUp, Numbered;
    CollapseKeepsLast(spans);
    if AllStartable(spans) {
      var m := Collapse(spans).value;
      var sorted := SortedItems(m);
      SortedSpans(m);
      NoFaultIsChain(range, 0, sorted);
      if Chain(range, 0, sorted) {
        ChainIsAcceptable(range, m);
      }
      if (forall k <- m :: Fine(range, m[k])) && Disjoint(m) {
        AcceptableIsChain(range, m);
      }
    }
  }

  lemma ChainIsAcceptable(range: Range, m: map<nat, Span>)
    requires WellKeyed(m) && Sorted(SortedItems(m)) && Chain(range, 0, SortedItems(m))
    ensures (forall k <- m :: Fine(range, m[k])) && Disjoint(m)
  {
    hide TimeToMinutes, SortedItems;
    var sorted := SortedItems(m);
    SortedSpans(m);
    forall j, k, t | j in m && k in m && Covers(m[j], t) && Covers(m[k], t) ensures j == k {
      var x :| 0 <= x < |sorted| && sorted[x] == m[j];
      var y :| 0 <= y < |sorted| && sorted[y] == m[k];
      assert x == y;
      assert HasStart(m[j], j) && HasStart(m[k], k);
    }
  }

  lemma AcceptableIsChain(range: Range, m: map<nat, Span>)
    requires WellKeyed(m) && Sorted(SortedItems(m))
    requires (forall k <- m :: Fine(range, m[k])) && Disjoint(m)
    ensures Chain(range, 0, SortedItems(m))
  {
    hide TimeToMinutes, SortedItems;
    var sorted := SortedItems(m);
    SortedSpans(m);
    forall i | 0 <= i < |sorted| ensures Fine(range, sorted[i]) {
      assert sorted[i] in sorted;
    }
    forall i, j | 0 <= i < j < |sorted| ensures EndOf(sorted[i]) <= StartOf(sorted[j]) {
      assert sorted[i] in sorted && sorted[j] in sorted;
      var si, sj := StartOf(sorted[i]), StartOf(sorted[j]);
      assert Covers(m[si], sj) && Covers(m[sj], sj) ==> si == sj;
    }
  }

  // ----- meaning

  /** The temperature a sorted list of spans asks for at minute `t`. */
  function Wanted(base: real, spans: seq<Span>, t: int): Value {
    if spans == [] then FloatV(base)
    else if Covers(spans[0], t) && spans[0].temperature.Some? then FloatV(spans[0].temperature.value)
    else Wanted(base, spans[1..], t)
  }

  /** The end of the last span. */
  function LastEnd(prev: nat, spans: seq<Span>): nat
    requires AllEndable(spans)
  {
    if spans == [] then prev else EndOf(spans[|spans| - 1])
  }

  predicate AllEndable(spans: seq<Span>) {
    forall i :: 0 <= i < |spans| ==> Endable(spans[i])
  }

  predicate WellFormed(slots: seq<Slot>) {
    forall i :: 0 <= i < |slots| ==> SlotEnd(slots[i]).Some? && Temperature in slots[i]
  }

  /** Slot `i` is the first to end after minute `t`. */
  predicate Decides(slots: seq<Slot>, i: int, t: nat)
    requires WellFormed(slots)
  {
    && 0 <= i < |slots| && t < SlotEnd(slots[i]).value
    && forall j :: 0 <= j < i ==> SlotEnd(slots[j]).value <= t
  }

  /** How many slots the spans need: one each, and one for every gap before a span. */
  function SlotsNeeded(prev: nat, spans: seq<Span>): nat
    requires AllEndable(spans)
    decreases |spans|
  {
    if spans == [] then 0
    else (if StartOf(spans[0]) > prev then 2 else 1) + SlotsNeeded(EndOf(spans[0]), spans[1..])
  }

  /** The slots end at strictly increasing times after `lo`, the last of them at `hi`. */
  ghost predicate Rising(lo: nat, hi: nat, slots: seq<Slot>) {
    && WellFormed(slots)
    && (forall i :: 0 <= i < |slots| ==> lo < SlotEnd(slots[i]).value <= hi)
    && (forall i, j :: 0 <= i < j < |slots| ==> SlotEnd(slots[i]).value < SlotEnd(slots[j]).value)
    && (if slots == [] then lo == hi else SlotEnd(slots[|slots| - 1]).value == hi)
  }

  predicate Tempered(range: Range, slots: seq<Slot>) {
    forall i :: 0 <= i < |slots| ==>
      Temperature in slots[i] && slots[i][Temperature].FloatV? && range.Has(slots[i][Temperature].x)
  }

  lemma RisingConcat(lo: nat, mid: nat, hi: nat, a: seq<Slot>, b: seq<Slot>)
    requires Rising(lo, mid, a) && Rising(mid, hi, b)
    ensures Rising(lo, hi, a + b)
  {
    hide SlotEnd;
    var c := a + b;
    assert forall i :: |a| <= i < |c| ==> c[i] == b[i - |a|];
  }

  lemma SpanSlotsRise(range: Range, base: real, prev: nat, span: Span)
    requires Startable(span) && SpanFault(range, prev, span).None?
    ensures Rising(prev, EndOf(span), SpanSlots(base, prev, span))
    ensures range.Has(base) ==> Tempered(range, SpanSlots(base, prev, span))
  {
    hide TimeToMinutes;
  }

  /** The emitted slots end at strictly increasing times, the last with the last span, and stay in the temperature
      range. */
  lemma {:induction false} EmittedRise(range: Range, base: real, prev: nat, spans: seq<Span>)
    requires AllStartable(spans) && FirstFault(range, prev, spans).None?
    ensures AllEndable(spans)
    ensures |Emit(range, base, prev, spans)| == SlotsNeeded(prev, spans)
    ensures Rising(prev, LastEnd(prev, spans), Emit(range, base, prev, spans))
    ensures range.Has(base) ==> Tempered(range, Emit(range, base, prev, spans))
    decreases |spans|
  {
    hide TimeToMinutes, Rising, Wanted;
    NoFaultIsChain(range, prev, spans);
    if spans != [] {
      var mid := EndOf(spans[0]);
      SpanSlotsRise(range, base, prev, spans[0]);
      EmittedRise(range, base, mid, spans[1..]);
      RisingConcat(prev, mid, LastEnd(prev, spans), SpanSlots(base, prev, spans[0]),
          Emit(range, base, mid, spans[1..]));
    } else {
      assert Rising(prev, prev, []) by { RisingNothing(prev); }
    }
  }

  lemma RisingNothing(lo: nat)
    ensures Rising(lo, lo, [])
  {
  }

  lemma EmitUnfolds(range: Range, base: real, prev: nat, spans: seq<Span>)
    requires AllStartable(spans) && spans != [] && FirstFault(range, prev, spans).None?
    ensures Emit(range, base, prev, spans) ==
      SpanSlots(base, prev, spans[0]) + Emit(range, base, EndOf(spans[0]), spans[1..])
  {
  }

  /** Up to the last end, the slot that decides minute `t` carries what the spans want then. */
  lemma {:induction false} EmittedMeaning(range: Range, base: real, prev: nat, spans: seq<Span>, t: nat)
    returns (i: int)
    requires AllStartable(spans) && FirstFault(range, prev, spans).None?
    requires AllEndable(spans) && prev <= t < LastEnd(prev, spans)
    requires WellFormed(Emit(range, base, prev, spans))
    ensures Decides(Emit(range, base, prev, spans), i, t)
    ensures Emit(range, base, prev, spans)[i][Temperature] == Wanted(base, spans, t)
    decreases |spans|
  {
    hide TimeToMinutes, Tempered, Emit;
    EmitUnfolds(range, base, prev, spans);
    assert Rising(prev, EndOf(spans[0]), SpanSlots(base, prev, spans[0]))
      by { SpanSlotsRise(range, base, prev, spans[0]); }
    NoFaultIsChain(range, prev, spans);
    var head, tail := SpanSlots(base, prev, spans[0]), Emit(range, base, EndOf(spans[0]), spans[1..]);
    var slots := Emit(range, base, prev, spans);
    assert slots == head + tail;
    SpanSlotsRise(range, base, prev, spans[0]);
    EmittedRise(range, base, EndOf(spans[0]), spans[1..]);
    if t < StartOf(spans[0]) {
      i := 0;
      WantedBefore(base, spans, t);
    } else if t < EndOf(spans[0]) {
      i := |head| - 1;
    } else {
      var k := EmittedMeaning(range, base, EndOf(spans[0]), spans[1..], t);
      i := |head| + k;
      assert forall j :: |head| <= j < |slots| ==> slots[j] == tail[j - |head|];
    }
  }

  lemma {:induction false} WantedBefore(base: real, spans: seq<Span>, t: int)
    requires forall span <- spans :: !Covers(span, t)
    ensures Wanted(base, spans, t) == FloatV(base)
  {
    if spans != [] {
      WantedBefore(base, spans[1..], t);
    }
  }

  /** What the given spans ask for at minute `t`: the temperature of the span covering it, else the base temperature. */
  ghost predicate AskedFor(base: real, m: map<nat, Span>, t: nat, v: Value) {
    && (forall k <- m :: Covers(m[k], t) ==> m[k].temperature.Some? && v == FloatV(m[k].temperature.value))
    && ((forall k <- m :: !Covers(m[k], t)) ==> v == FloatV(base))
  }

  lemma {:induction false} WantedCover(base: real, spans: seq<Span>, i: nat, t: int)
    requires i < |spans| && Covers(spans[i], t) && spans[i].temperature.Some?
    requires forall j :: 0 <= j < i ==> !Covers(spans[j], t)
    ensures Wanted(base, spans, t) == FloatV(spans[i].temperature.value)
  {
    if i > 0 {
      WantedCover(base, spans[1..], i - 1, t);
    }
  }

  lemma WantedIsAskedFor(range: Range, base: real, m: map<nat, Span>, t: nat)
    requires WellKeyed(m) && Acceptable(range, base, m)
    ensures AskedFor(base, m, t, Wanted(base, SortedItems(m), t))
  {
    hide TimeToMinutes, SortedItems;
    var sorted := SortedItems(m);
    SortedSpans(m);
    forall k <- m | Covers(m[k], t) ensures Wanted(base, sorted, t) == FloatV(m[k].temperature.value) {
      var i :| 0 <= i < |sorted| && sorted[i] == m[k];
      forall j | 0 <= j < i ensures !Covers(sorted[j], t) {
        assert sorted[j] in sorted && HasStart(m[k], k);
        var o := StartOf(sorted[j]);
        assert m[o] == sorted[j] && o < k;
      }
      WantedCover(base, sorted, i, t);
    }
    if forall k <- m :: !Covers(m[k], t) {
      WantedBefore(base, sorted, t);
    }
  }

  lemma {:induction false} LookupHit(weekday: Weekday, no: nat, i: nat, t: nat)
    requires no <= i <= LAST_SLOT
    requires forall j :: no <= j <= i ==> j in weekday && SlotEnd(weekday[j]).Some?
    requires forall j :: no <= j < i ==> SlotEnd(weekday[j]).value <= t
    requires t < SlotEnd(weekday[i]).value && Temperature in weekday[i]
    ensures TemperatureAt(weekday, no, t) == Some(weekday[i][Temperature])
    decreases i - no
  {
    hide SlotEnd;
    if no < i {
      LookupHit(weekday, no + 1, i, t);
    }
  }

  lemma {:induction false} LookupMiss(weekday: Weekday, no: nat, t: nat)
    requires forall j :: no <= j <= LAST_SLOT ==>
      j in weekday && SlotEnd(weekday[j]).Some? && SlotEnd(weekday[j]).value <= t
    ensures TemperatureAt(weekday, no, t) == None
    decreases LAST_SLOT + 1 - no
  {
    hide SlotEnd;
    if no <= LAST_SLOT {
      LookupMiss(weekday, no + 1, t);
    }
  }

  /** The slots of an accepted list of spans, before filling up. */
  function Slots(range: Range, base: real, spans: seq<Span>): seq<Slot>
    requires Convert(range, base, spans).Success?
  {
    SortedSpans(Collapse(spans).value);
    Emit(range, base, 0, SortedItems(Collapse(spans).value))
  }

  /** Filling up leaves the emitted slots alone and completes the numbers up to 13. */
  lemma FillUpAt(base: real, slots: seq<Slot>, no: int)
    ensures no in FillUp(base, Numbered(slots)) <==> 1 <= no && (no <= |slots| || no <= LAST_SLOT)
    ensures 1 <= no <= |slots| ==> FillUp(base, Numbered(slots))[no] == slots[no - 1]
    ensures |slots| < no <= LAST_SLOT ==> FillUp(base, Numbered(slots))[no] == TimeSlot(MAX_TIME, base)
  {
  }

  /** Minutes the weekday leaves open: those after the thirteenth slot, when the spans need thirteen or more. */
  predicate LeftOpen(slots: seq<Slot>, t: nat)
    requires WellFormed(slots)
  {
    |slots| >= LAST_SLOT && SlotEnd(slots[LAST_SLOT - 1]).value <= t
  }

  lemma LookupDecided(base: real, slots: seq<Slot>, end: nat, i: int, t: nat)
    requires Rising(0, end, slots) && Decides(slots, i, t)
    ensures var weekday := FillUp(base, Numbered(slots));
      if LeftOpen(slots, t) then TemperatureAt(weekday, 1, t) == None
      else TemperatureAt(weekday, 1, t) == Some(slots[i][Temperature])
  {
    hide TimeToMinutes, FillUp, Numbered, Numbers, TemperatureAt, SlotEnd;
    var weekday := FillUp(base, Numbered(slots));
    forall no: nat { FillUpAt(base, slots, no); }
    if i < LAST_SLOT {
      LookupHit(weekday, 1, i + 1, t);
    } else {
      LookupMiss(weekday, 1, t);
    }
  }

  lemma LookupUndecided(base: real, slots: seq<Slot>, t: nat)
    requires WellFormed(slots) && t < 1440
    requires forall i :: 0 <= i < |slots| ==> SlotEnd(slots[i]).value <= t
    ensures var weekday := FillUp(base, Numbered(slots));
      if LeftOpen(slots, t) then TemperatureAt(weekday, 1, t) == None
      else TemperatureAt(weekday, 1, t) == Some(FloatV(base))
  {
    hide TimeToMinutes, FillUp, Numbered, Numbers, TemperatureAt;
    var weekday := FillUp(base, Numbered(slots));
    forall no: nat { FillUpAt(base, slots, no); }
    MidnightTimes();
    if |slots| < LAST_SLOT {
      LookupHit(weekday, 1, |slots| + 1, t);
    } else {
      LookupMiss(weekday, 1, t);
    }
  }

  /** What an objection to a span says of it, the span before it having ended at `prev`. */
  predicate Blames(range: Range, prev: nat, span: Span, e: Error)
    requires Startable(span)
  {
    match e
    case EndMissing => span.end.None?
    case TemperatureMissing => span.end.Some? && span.temperature.None?
    case BadTime => span.end.Some? && !Endable(span)
    case StartNotBeforeEnd => Endable(span) && StartOf(span) >= EndOf(span)
    case Overlap => Endable(span) && prev > StartOf(span)
    case TemperatureOutOfRange =>
      span.temperature.Some? && !(range.min <= span.temperature.value <= range.max)
    case _ => false
  }

  /** Span `i` of the sorted list is at fault: all spans before it make a chain. */
  ghost predicate FaultAt(range: Range, prev: nat, spans: seq<Span>, i: int, e: Error)
    requires AllStartable(spans)
  {
    && 0 <= i < |spans| && AllEndable(spans[..i]) && Chain(range, prev, spans[..i])
    && Blames(range, if i == 0 then prev else EndOf(spans[i - 1]), spans[i], e)
  }

  lemma {:induction false} FirstFaultIs(range: Range, prev: nat, spans: seq<Span>)
    requires AllStartable(spans) && FirstFault(range, prev, spans).Some?
    ensures exists i :: FaultAt(range, prev, spans, i, FirstFault(range, prev, spans).value)
    decreases |spans|
  {
    hide TimeToMinutes, Chain;
    var e := FirstFault(range, prev, spans).value;
    if SpanFault(range, prev, spans[0]).Some? {
      assert Chain(range, prev, spans[..0]) by { EmptyChain(range, prev, spans); }
      assert FaultAt(range, prev, spans, 0, e);
    } else {
      var mid, rest := EndOf(spans[0]), spans[1..];
      FirstFaultIs(range, mid, rest);
      var i :| FaultAt(range, mid, rest, i, e);
      assert spans[..i + 1] == [spans[0]] + rest[..i];
      LongerChain(range, prev, spans[0], rest[..i]);
      assert FaultAt(range, prev, spans, i + 1, e);
    }
  }

  lemma EmptyChain(range: Range, prev: nat, spans: seq<Span>)
    requires AllStartable(spans)
    ensures Chain(range, prev, spans[..0])
  {
  }

  lemma LongerChain(range: Range, prev: nat, span: Span, rest: seq<Span>)
    requires Startable(span) && SpanFault(range, prev, span).None?
    requires AllStartable(rest) && Chain(range, EndOf(span), rest)
    ensures AllStartable([span] + rest) && Chain(range, prev, [span] + rest)
  {
    hide TimeToMinutes;
  }

  /** Why a list is refused: the base temperature, a start that cannot be read, or else the first span in order of start
      that does not fit behind the ones before it, with what is wrong with it. */
  lemma RefusedBecause(range: Range, base: real, spans: seq<Span>)
    requires Convert(range, base, spans).Failure?
    ensures var e := Convert(range, base, spans).error;
      if !(range.min <= base <= range.max) then e == BaseOutOfRange
      else if !AllStartable(spans) then exists i :: UnreadableAt(spans, i, e)
      else (
        && Collapse(spans).Success? && AllStartable(SortedItems(Collapse(spans).value))
        && exists i :: FaultAt(range, 0, SortedItems(Collapse(spans).value), i, e))
  {
    hide TimeToMinutes, SortedItems, Chain, FirstFault;
    CollapseKeepsLast(spans);
    CollapseFails(spans);
    if Collapse(spans).Success? {
      var sorted := SortedItems(Collapse(spans).value);
      SortedSpans(Collapse(spans).value);
      if FirstFault(range, 0, sorted).Some? {
        FirstFaultIs(range, 0, sorted);
      }
    }
  }

  lemma {:induction false} CollapseFails(spans: seq<Span>)
    ensures Collapse(spans).Failure? ==> exists i :: UnreadableAt(spans, i, Collapse(spans).error)
  {
    hide TimeToMinutes;
    if spans != [] {
      var n := |spans| - 1;
      CollapseFails(spans[..n]);
      CollapseKeepsLast(spans[..n]);
      if Collapse(spans[..n]).Failure? {
        var i :| UnreadableAt(spans[..n], i, Collapse(spans[..n]).error);
        assert spans[..n][..i] == spans[..i];
        assert UnreadableAt(spans, i, Collapse(spans[..n]).error);
      } else if Collapse(spans).Failure? {
        assert UnreadableAt(spans, n, Collapse(spans).error);
      }
    }
  }

  /** Span `i` is the first of the list as given whose start is missing or cannot be read. */
  predicate UnreadableAt(spans: seq<Span>, i: int, e: Error) {
    && 0 <= i < |spans| && AllStartable(spans[..i]) && !Startable(spans[i])
    && e == if spans[i].start.None? then KeyMissing else BadTime
  }

  // ----- the minutes at which slots have to end

  predicate EndsAt(span: Span, t: nat) { Endable(span) && EndOf(span) == t }

  /** The minutes at which a slot has to end: where a span ends, and where one starts with no span ending there. */
  function Boundaries(m: map<nat, Span>): set<nat> {
    (set k | k in m && Endable(m[k]) :: EndOf(m[k])) + (set k | k in m && k > 0 && forall j <- m :: !EndsAt(m[j], k))
  }

  /** The boundaries up to minute `t`. */
  function Passed(m: map<nat, Span>, t: nat): set<nat> { set b | b in Boundaries(m) && b <= t }

  /** So many boundaries lie behind minute `t` that no slot is left for it. */
  predicate Uncovered(m: map<nat, Span>, t: nat) { |Passed(m, t)| >= LAST_SLOT }

  function EndsOf(slots: seq<Slot>): (ends: seq<nat>)
    requires WellFormed(slots)
    ensures |ends| == |slots| && forall i :: 0 <= i < |slots| ==> ends[i] == SlotEnd(slots[i]).value
  {
    seq(|slots|, i requires 0 <= i < |slots| => SlotEnd(slots[i]).value)
  }

  /** A slot for the sorted spans, the first of which may start at `prev`, ends at `b`. */
  predicate IsSlotEnd(prev: nat, spans: seq<Span>, b: nat)
    requires AllEndable(spans)
    decreases |spans|
  {
    spans != [] &&
    ((b == StartOf(spans[0]) && b > prev) || b == EndOf(spans[0]) || IsSlotEnd(EndOf(spans[0]), spans[1..], b))
  }

  lemma {:induction false} EmittedEnds(range: Range, base: real, prev: nat, spans: seq<Span>, b: nat)
    requires AllStartable(spans) && FirstFault(range, prev, spans).None? && AllEndable(spans)
    requires WellFormed(Emit(range, base, prev, spans))
    ensures b in EndsOf(Emit(range, base, prev, spans)) <==> IsSlotEnd(prev, spans, b)
    decreases |spans|
  {
    hide TimeToMinutes, Emit;
    if spans != [] {
      var mid := EndOf(spans[0]);
      EmitUnfolds(range, base, prev, spans);
      var head, tail := SpanSlots(base, prev, spans[0]), Emit(range, base, mid, spans[1..]);
      EmittedRise(range, base, mid, spans[1..]);
      EmittedEnds(range, base, mid, spans[1..], b);
      SpanSlotsRise(range, base, prev, spans[0]);
      assert EndsOf(head + tail) == EndsOf(head) + EndsOf(tail);
      assert EndsOf(head) == if StartOf(spans[0]) > prev then [StartOf(spans[0]), mid] else [mid];
    } else {
      assert Emit(range, base, prev, spans) == [] by { EmitNothing(range, base, prev); }
    }
  }

  lemma EmitNothing(range: Range, base: real, prev: nat)
    ensures Emit(range, base, prev, []) == []
  {
  }

  /** In a chain of spans, the slot ends are the ends of spans and the starts at which no span ends. */
  lemma {:induction false} ChainEnds(range: Range, prev: nat, spans: seq<Span>, b: nat)
    requires AllStartable(spans) && AllEndable(spans) && Chain(range, prev, spans)
    ensures IsSlotEnd(prev, spans, b) <==>
      || (exists i :: 0 <= i < |spans| && EndsAt(spans[i], b))
      || (b > prev && (exists i :: 0 <= i < |spans| && StartOf(spans[i]) == b) &&
          forall i :: 0 <= i < |spans| ==> !EndsAt(spans[i], b))
    decreases |spans|
  {
    hide TimeToMinutes;
    if spans != [] {
      var rest := spans[1..];
      assert forall i :: 0 <= i < |rest| ==> rest[i] == spans[i + 1];
      ChainEnds(range, EndOf(spans[0]), rest, b);
      assert EndsAt(spans[0], b) <==> b == EndOf(spans[0]);
      if exists i :: 0 <= i < |rest| && EndsAt(rest[i], b) {
        var i :| 0 <= i < |rest| && EndsAt(rest[i], b);
        assert EndsAt(spans[i + 1], b);
      }
      if i :| 0 <= i < |rest| && StartOf(rest[i]) == b {
        assert StartOf(spans[i + 1]) == b && b >= EndOf(spans[0]);
      }
      if b == StartOf(spans[0]) {
        assert forall i :: 0 <= i < |spans| ==> StartOf(spans[0]) < EndOf(spans[i]);
      }
    }
  }

  /** The slots of an accepted list of spans end exactly at the boundaries of the spans. */
  lemma SlotsEndAtBoundaries(range: Range, base: real, spans: seq<Span>)
    requires Convert(range, base, spans).Success?
    ensures WellFormed(Slots(range, base, spans)) && Ascending(EndsOf(Slots(range, base, spans)))
    ensures forall b :: b in EndsOf(Slots(range, base, spans)) <==> b in Boundaries(Collapse(spans).value)
  {
    hide TimeToMinutes, SortedItems, Collapse, Emit, FillUp, Numbered, EndsOf, IsSlotEnd, Slots, Convert;
    AcceptedSlots(range, base, spans);
    var m := Collapse(spans).value;
    var sorted, slots := SortedItems(m), Slots(range, base, spans);
    SortedSpans(m);
    EmittedRise(range, base, 0, sorted);
    NoFaultIsChain(range, 0, sorted);
    forall b: nat ensures b in EndsOf(slots) <==> b in Boundaries(m) {
      EmittedEnds(range, base, 0, sorted, b);
      ChainEnds(range, 0, sorted, b);
      SortedBoundary(m, b);
    }
  }

  lemma AcceptedSlots(range: Range, base: real, spans: seq<Span>)
    requires Convert(range, base, spans).Success?
    ensures Collapse(spans).Success? && WellKeyed(Collapse(spans).value)
    ensures AllStartable(SortedItems(Collapse(spans).value))
    ensures FirstFault(range, 0, SortedItems(Collapse(spans).value)).None?
    ensures Slots(range, base, spans) == Emit(range, base, 0, SortedItems(Collapse(spans).value))
    ensures Convert(range, base, spans).value == FillUp(base, Numbered(Slots(range, base, spans)))
    ensures range.Has(base)
  {
    hide TimeToMinutes, SortedItems, Collapse, Emit, FillUp, Numbered;
    SortedSpans(Collapse(spans).value);
  }

  lemma SortedBoundary(m: map<nat, Span>, b: nat)
    requires WellKeyed(m) && AllEndable(SortedItems(m))
    ensures var sorted := SortedItems(m);
      b in Boundaries(m) <==>
        || (exists i :: 0 <= i < |sorted| && EndsAt(sorted[i], b))
        || (b > 0 && (exists i :: 0 <= i < |sorted| && StartOf(sorted[i]) == b) &&
            forall i :: 0 <= i < |sorted| ==> !EndsAt(sorted[i], b))
  {
    hide TimeToMinutes, SortedItems;
    var sorted := SortedItems(m);
    SortedSpans(m);
    forall k <- m ensures exists i :: 0 <= i < |sorted| && sorted[i] == m[k] && StartOf(sorted[i]) == k {
      assert HasStart(m[k], k) && m[k] in sorted;
      var i :| 0 <= i < |sorted| && sorted[i] == m[k];
    }
    forall i | 0 <= i < |sorted| ensures StartOf(sorted[i]) in m && m[StartOf(sorted[i])] == sorted[i] {
      assert sorted[i] in sorted;
    }
  }

  function UpTo(ends: seq<nat>, t: nat): set<nat> { set b | b in ends && b <= t }

  lemma UpToFront(ends: seq<nat>, t: nat)
    requires Ascending(ends) && ends != []
    ensures var front, last := ends[..|ends| - 1], ends[|ends| - 1];
      && last !in UpTo(front, t) && Ascending(front)
      && UpTo(ends, t) == UpTo(front, t) + if last <= t then {last} else {}
  {
    var front, last := ends[..|ends| - 1], ends[|ends| - 1];
    assert ends == front + [last];
  }

  /** How many of the ascending numbers are at most `t`. */
  lemma {:induction false} CountUpTo(ends: seq<nat>, t: nat, k: nat)
    requires Ascending(ends)
    ensures |UpTo(ends, t)| >= k <==> k == 0 || (|ends| >= k && ends[k - 1] <= t)
  {
    hide UpTo, Ascending;
    if ends != [] {
      var front, last := ends[..|ends| - 1], ends[|ends| - 1];
      UpToFront(ends, t);
      CountUpTo(front, t, k);
      if last <= t && k > 0 {
        CountUpTo(front, t, k - 1);
        AscendingLast(ends, k - 1);
        AscendingLast(ends, k - 2);
      }
    } else {
      assert UpTo([], t) == {} by { UpToNothing(t); }
    }
  }

  lemma UpToNothing(t: nat)
    ensures UpTo([], t) == {}
  {
  }

  lemma AscendingLast(ends: seq<nat>, i: int)
    requires Ascending(ends)
    ensures 0 <= i < |ends| ==> ends[i] <= ends[|ends| - 1]
  {
  }

  lemma AllUpTo(ends: seq<nat>, t: nat)
    requires Ascending(ends) && forall b <- ends :: b <= t
    ensures |set b | b in ends| == |ends|
  {
    hide Ascending;
    assert (set b | b in ends) == UpTo(ends, t);
    assert ends != [] ==> ends[|ends| - 1] in ends;
    CountUpTo(ends, t, |ends|);
    CountUpTo(ends, t, |ends| + 1);
  }

  /** A minute lies behind the thirteenth slot exactly if thirteen boundaries are passed. */
  lemma SlotsPassed(range: Range, base: real, spans: seq<Span>, t: nat, k: nat)
    requires Convert(range, base, spans).Success?
    ensures WellFormed(Slots(range, base, spans))
    ensures |Boundaries(Collapse(spans).value)| == |Slots(range, base, spans)|
    ensures |Passed(Collapse(spans).value, t)| >= k <==>
      k == 0 || (|Slots(range, base, spans)| >= k && SlotEnd(Slots(range, base, spans)[k - 1]).value <= t)
  {
    hide TimeToMinutes, Collapse, Slots, Convert, Boundaries, SlotEnd, Ascending;
    AcceptedSlots(range, base, spans);
    SlotsEndAtBoundaries(range, base, spans);
    var m, ends := Collapse(spans).value, EndsOf(Slots(range, base, spans));
    CountUpTo(ends, t, k);
    assert UpTo(ends, t) == Passed(m, t);
    assert (set b | b in ends) == Boundaries(m);
    forall b <- ends ensures b <= if ends == [] then 0 else ends[|ends| - 1] {
      var i :| 0 <= i < |ends| && ends[i] == b;
      AscendingLast(ends, i);
    }
    AllUpTo(ends, if ends == [] then 0 else ends[|ends| - 1]);
  }

  /** The slots of a compiled weekday: numbered from 1 without a gap, the emitted ones in their order at strictly
      increasing times, then midnight slots with the base temperature. */
  lemma CompiledSlots(range: Range, base: real, spans: seq<Span>, no: int)
    requires Convert(range, base, spans).Success?
    ensures var slots, weekday := Slots(range, base, spans), Convert(range, base, spans).value;
      && (exists end :: Rising(0, end, slots)) && Tempered(range, slots)
      && (no in weekday <==> 1 <= no <= LAST_SLOT || 1 <= no <= |slots|)
      && (no in weekday ==> weekday[no] == if no <= |slots| then slots[no - 1] else TimeSlot(MAX_TIME, base))
  {
    hide TimeToMinutes, SortedItems, Collapse, FillUp, Numbered, Rising, Emit, Tempered;
    var sorted := SortedItems(Collapse(spans).value);
    SortedSpans(Collapse(spans).value);
    EmittedRise(range, base, 0, sorted);
    FillUpAt(base, Slots(range, base, spans), no);
  }

  /** Compilation preserves meaning: at every minute of the day the thermostat applies what the spans ask for, except
      behind the thirteenth boundary, where it has no slot at all. */
  lemma CompiledMeaning(range: Range, base: real, spans: seq<Span>, t: nat)
    requires Convert(range, base, spans).Success? && t < 1440
    ensures match TemperatureAt(Convert(range, base, spans).value, 1, t)
      case Some(v) => !Uncovered(Collapse(spans).value, t) && AskedFor(base, Collapse(spans).value, t, v)
      case None => Uncovered(Collapse(spans).value, t)
  {
    hide TimeToMinutes, SortedItems, Collapse, FillUp, Numbered, TemperatureAt, SlotEnd, Emit, SpanSlots, Convert,
      Slots, Passed;
    SlotsPassed(range, base, spans, t, LAST_SLOT);
    AcceptedSlots(range, base, spans);
    AcceptedIffDisjoint(range, base, spans);
    var m := Collapse(spans).value;
    var sorted, slots := SortedItems(m), Slots(range, base, spans);
    SortedSpans(m);
    EmittedRise(range, base, 0, sorted);
    WantedIsAskedFor(range, base, m, t);
    if t < LastEnd(0, sorted) {
      var i := EmittedMeaning(range, base, 0, sorted, t);
      LookupDecided(base, slots, LastEnd(0, sorted), i, t);
    } else {
      LookupUndecided(base, slots, t);
      WantedAfter(range, base, sorted, t);
    }
  }

  lemma WantedAfter(range: Range, base: real, sorted: seq<Span>, t: nat)
    requires AllStartable(sorted) && FirstFault(range, 0, sorted).None?
    requires AllEndable(sorted) && t >= LastEnd(0, sorted)
    ensures Wanted(base, sorted, t) == FloatV(base)
  {
    hide TimeToMinutes;
    NoFaultIsChain(range, 0, sorted);
    WantedBefore(base, sorted, t);
  }

  /** The whole day is covered exactly if at most twelve boundaries of the spans lie before midnight. */
  lemma DayCoveredIff(range: Range, base: real, spans: seq<Span>)
    requires Convert(range, base, spans).Success?
    ensures (forall t: nat | t < 1440 :: TemperatureAt(Convert(range, base, spans).value, 1, t).Some?) <==>
      |set b | b in Boundaries(Collapse(spans).value) && b < 1440| < LAST_SLOT
  {
    hide TimeToMinutes, Collapse, Convert, TemperatureAt, Boundaries, AskedFor;
    AcceptedSlots(range, base, spans);
    var m := Collapse(spans).value;
    forall t: nat | t < 1440
      ensures TemperatureAt(Convert(range, base, spans).value, 1, t).Some? <==> !Uncovered(m, t)
      ensures Uncovered(m, t) ==> Uncovered(m, 1439)
    {
      CompiledMeaning(range, base, spans, t);
      PassedGrows(m, t, 1439);
    }
    assert Passed(m, 1439) == set b | b in Boundaries(m) && b < 1440;
    assert TemperatureAt(Convert(range, base, spans).value, 1, 1439).Some? <==> !Uncovered(m, 1439);
  }

  lemma PassedGrows(m: map<nat, Span>, t: nat, u: nat)
    requires t <= u
    ensures |Passed(m, t)| <= |Passed(m, u)|
  {
    hide Boundaries;
    assert Passed(m, u) == Passed(m, t) + (Passed(m, u) - Passed(m, t));
  }

  // ----- a day that is not covered

  lemma {:induction false} AscendingUnique(a: seq<nat>, b: seq<nat>)
    requires Ascending(a) && Ascending(b)
    requires forall k :: k in a <==> k in b
    ensures a == b
  {
    if a != [] { assert a[0] in a; }
    if b != [] { assert b[0] in b; }
    if a != [] && b != [] {
      assert a[0] == b[0];
      forall k ensures k in a[1..] <==> k in b[1..] {
        assert k in a <==> k == a[0] || k in a[1..];
        assert k in b <==> k == b[0] || k in b[1..];
      }
      AscendingUnique(a[1..], b[1..]);
    }
  }

  /** A list that is already sorted comes out as it went in. */
  lemma SortedStays(spans: seq<Span>)
    requires Sorted(spans)
    ensures Collapse(spans).Success? && SortedItems(Collapse(spans).value) == spans
  {
    hide TimeToMinutes, Collapse, SortedKeys;
    CollapseKeepsLast(spans);
    var m := Collapse(spans).value;
    var keys := seq(|spans|, i requires 0 <= i < |spans| => StartOf(spans[i]));
    forall i | 0 <= i < |spans| ensures keys[i] in m && m[keys[i]] == spans[i] {
      assert IsLast(spans, i, keys[i]);
    }
    forall k ensures k in keys <==> k in SortedKeys(m.Keys) {
      if k in m {
        var i :| IsLast(spans, i, k);
        assert keys[i] == k;
      }
    }
    AscendingUnique(keys, SortedKeys(m.Keys));
  }

  function Hour(i: nat): Span
    requires i < 24
  {
    Span(MinutesToTime(60 * i), MinutesToTime(60 * i + 60), Some(20.0))
  }

  function Hours(lo: nat, hi: nat): seq<Span>
    requires lo <= hi <= 24
  {
    seq(hi - lo, i requires 0 <= i < hi - lo => Hour(lo + i))
  }

  lemma HourTimes(i: nat)
    requires i < 24
    ensures Endable(Hour(i)) && StartOf(Hour(i)) == 60 * i && EndOf(Hour(i)) == 60 * i + 60
  {
    hide TimeToMinutes, MinutesToTime;
    TimeRoundTrip(60 * i);
    TimeRoundTrip(60 * i + 60);
  }

  lemma {:induction false} HoursNeed(lo: nat, hi: nat)
    requires lo <= hi <= 24
    ensures AllEndable(Hours(lo, hi))
    ensures SlotsNeeded(60 * lo, Hours(lo, hi)) == hi - lo
    decreases hi - lo
  {
    hide TimeToMinutes, Hour;
    forall i: nat | i < 24 { HourTimes(i); }
    if lo < hi {
      assert Hours(lo, hi)[1..] == Hours(lo + 1, hi);
      HoursNeed(lo + 1, hi);
    }
  }

  /** Thirteen hourly spans from midnight are accepted, and from 13:00 on the thermostat has no slot to follow: the base
      temperature is not applied. */
  lemma TailNotCovered()
    ensures var range := Range(5.0, 30.5);
      && Convert(range, 17.0, Hours(0, 13)).Success?
      && TemperatureAt(Convert(range, 17.0, Hours(0, 13)).value, 1, 780) == None
  {
    hide TimeToMinutes, Hour, SortedItems, Collapse, TemperatureAt, Passed, Numbered, FillUp, SlotEnd, TimeSlot,
      AskedFor;
    var range, spans := Range(5.0, 30.5), Hours(0, 13);
    forall i: nat | i < 24 ensures Fine(range, Hour(i)) && StartOf(Hour(i)) == 60 * i && EndOf(Hour(i)) == 60 * i + 60 {
      HourTimes(i);
      assert Hour(i).temperature == Some(20.0) by { HourTemperature(i); }
    }
    SortedStays(spans);
    SortedSpans(Collapse(spans).value);
    NoFaultIsChain(range, 0, spans);
    EmittedRise(range, 17.0, 0, spans);
    HoursNeed(0, 13);
    SlotsPassed(range, 17.0, spans, 780, LAST_SLOT);
    CompiledMeaning(range, 17.0, spans, 780);
  }

  lemma HourTemperature(i: nat)
    requires i < 24
    ensures Hour(i).temperature == Some(20.0)
  {
  }
}
