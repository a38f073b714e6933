/** The flat form of schedules: a paramset with one entry per slot value, named like P1_ENDTIME_MONDAY_3. */
module ScheduleRaw {
  import opened Wrappers
  import opened Numerals
  import opened Text
  import opened ScheduleTime
  import opened Schedule

  datatype Profile = P1 | P2 | P3 | P4 | P5 | P6

  datatype Day = Monday | Tuesday | Wednesday | Thursday | Friday | Saturday | Sunday

  type Program = map<Day, Weekday>

  type ScheduleData = map<Profile, Program>

  type RawSchedule = map<string, Value>

  /** Where a value sits in a schedule. */
  datatype Key = Key(profile: Profile, day: Day, no: int, slotType: SlotType)

  function ProfileName(p: Profile): string {
    match p
    case P1 => "P1" case P2 => "P2" case P3 => "P3" case P4 => "P4" case P5 => "P5" case P6 => "P6"
  }

  function DayName(d: Day): string {
    match d
    case Monday => "MONDAY" case Tuesday => "TUESDAY" case Wednesday => "WEDNESDAY" case Thursday => "THURSDAY"
    case Friday => "FRIDAY" case Saturday => "SATURDAY" case Sunday => "SUNDAY"
  }

  function TypeName(t: SlotType): string {
    match t
    case EndTime => "ENDTIME" case StartTime => "STARTTIME" case Temperature => "TEMPERATURE"
  }

  function ProfileOf(name: string): Option<Profile> {
    if name == "P1" then Some(P1) else if name == "P2" then Some(P2) else if name == "P3" then Some(P3)
    else if name == "P4" then Some(P4) else if name == "P5" then Some(P5) else if name == "P6" then Some(P6)
    else None
  }

  function DayOf(name: string): Option<Day> {
    if name == "MONDAY" then Some(Monday) else if name == "TUESDAY" then Some(Tuesday)
    else if name == "WEDNESDAY" then Some(Wednesday) else if name == "THURSDAY" then Some(Thursday)
    else if name == "FRIDAY" then Some(Friday) else if name == "SATURDAY" then Some(Saturday)
    else if name == "SUNDAY" then Some(Sunday) else None
  }

  function TypeOf(name: string): Option<SlotType> {
    if name == "ENDTIME" then Some(EndTime) else if name == "STARTTIME" then Some(StartTime)
    else if name == "TEMPERATURE" then Some(Temperature) else None
  }

  function RawName(k: Key): string {
    ProfileName(k.profile) + "_" + (TypeName(k.slotType) + "_" + (DayName(k.day) + "_" + PrintInt(k.no)))
  }

  /** Reading a name back: four parts, each a known name or a number. */
  function KeyOf(name: string): Option<Key> {
    var parts := Split(name, '_');
    if |parts| != 4 then None else
    match (ProfileOf(parts[0]), TypeOf(parts[1]), DayOf(parts[2]), Parse(parts[3], 10))
    case (Some(p), Some(t), Some(d), Some(no)) => Some(Key(p, d, no, t))
    case _ => None
  }

  /** The names a schedule may have. */
  predicate NamePattern(name: string) {
    var parts := Split(name, '_');
    && |parts| == 4
    && parts[0] in ["P1", "P2", "P3", "P4", "P5", "P6"]
    && parts[1] in ["ENDTIME", "TEMPERATURE"]
    && parts[2] in ["MONDAY", "TUESDAY", "WEDNESDAY", "THURSDAY", "FRIDAY", "SATURDAY", "SUNDAY"]
    && SlotPattern(parts[3])
  }

  predicate SlotPattern(n: string) {
    (|n| == 1 && '1' <= n[0] <= '9') || (|n| == 2 && n[0] == '1' && '0' <= n[1] <= '3')
  }

  predicate Regular(k: Key) { 1 <= k.no <= LAST_SLOT && !k.slotType.StartTime? }

  lemma PrintIntFree(n: int)
    ensures '_' !in PrintInt(n)
  {
  }

  lemma RawNameParts(k: Key)
    ensures Split(RawName(k), '_') == [ProfileName(k.profile), TypeName(k.slotType), DayName(k.day), PrintInt(k.no)]
  {
    PrintIntFree(k.no);
    SplitTwo(DayName(k.day), '_', PrintInt(k.no));
    SplitCons(TypeName(k.slotType), '_', DayName(k.day) + "_" + PrintInt(k.no));
    SplitCons(ProfileName(k.profile), '_', TypeName(k.slotType) + "_" + (DayName(k.day) + "_" + PrintInt(k.no)));
  }

  lemma SlotNumbers(no: int)
    ensures SlotPattern(PrintInt(no)) <==> 1 <= no <= LAST_SLOT
  {
    if no >= 100 {
      assert Print(no, 10) == Print(no / 10, 10) + [DigitChar(no % 10)];
      assert Print(no / 10, 10) == Print(no / 10 / 10, 10) + [DigitChar(no / 10 % 10)];
    } else if no >= 10 {
      assert Print(no, 10) == [DigitChar(no / 10)] + [DigitChar(no % 10)];
    } else if no < 0 {
      assert PrintInt(no)[0] == '-';
    }
  }

  lemma SlotNumberReads(n: string)
    requires SlotPattern(n)
    ensures Parse(n, 10).Some? && PrintInt(Parse(n, 10).value) == n
  {
    if |n| == 2 {
      var units := DigitValue(n[1]);
      assert Parse(n[..1], 10) == Some(1);
      assert Parse(n, 10) == Some(10 + units);
      assert PrintInt(10 + units) == [DigitChar(1)] + [DigitChar(units)] == n;
    }
  }

  /** Reading a printed name gives the place it was printed for, so no two places share a name; the names accepted are
      those of the regular places. */
  lemma NameRoundTrip(k: Key)
    ensures k.no >= 0 ==> KeyOf(RawName(k)) == Some(k)
    ensures NamePattern(RawName(k)) <==> Regular(k)
  {
    hide Split, RawName, Parse, SlotPattern, PrintInt;
    RawNameParts(k);
    SlotNumbers(k.no);
    if k.no >= 0 {
      ParsePrint(k.no, 10);
      assert PrintInt(k.no) == Print(k.no, 10) by { PrintNatural(k.no); }
    }
  }

  lemma PrintNatural(n: nat)
    ensures PrintInt(n) == Print(n, 10)
  {
  }

  /** Every accepted name is the name of a regular place. */
  lemma AcceptedName(name: string)
    requires NamePattern(name)
    ensures KeyOf(name).Some? && Regular(KeyOf(name).value) && RawName(KeyOf(name).value) == name
  {
    hide Split, Parse, SlotPattern, PrintInt, Print;
    var parts := Split(name, '_');
    JoinSplit(name, '_');
    SlotNumberReads(parts[3]);
    SlotNumbers(Parse(parts[3], 10).value);
    JoinFour(parts);
  }

  lemma JoinFour(parts: seq<string>)
    requires |parts| == 4
    ensures Join(parts, '_') == parts[0] + "_" + (parts[1] + "_" + (parts[2] + "_" + parts[3]))
  {
    assert parts[1..][1..] == parts[2..] && parts[2..][1..] == parts[3..];
    assert Join(parts[3..], '_') == parts[3];
    assert Join(parts[2..], '_') == parts[2] + "_" + parts[3];
    assert Join(parts[1..], '_') == parts[1] + "_" + (parts[2] + "_" + parts[3]);
  }

  // ----- the nested form

  function Keys(data: ScheduleData): set<Key> {
    set p, d, no, t | p in data && d in data[p] && no in data[p][d] && t in data[p][d][no] :: Key(p, d, no, t)
  }

  /** A schedule as one flat dictionary. */
  function Flat(data: ScheduleData): map<Key, Value> {
    map k | k in Keys(data) :: data[k.profile][k.day][k.no][k.slotType]
  }

  /** The value stored for a raw value: whole minutes become a time string. None where a validation error is raised. */
  function Cook(k: Key, v: Value): Option<Value> {
    if k.slotType.EndTime? && v.IntV? then
      match MinutesToTime(v.n) case None => None case Some(s) => Some(StrV(s))
    else Some(v)
  }

  /** The raw value of a stored value: a time string becomes minutes. None where a validation error is raised. */
  function Uncook(k: Key, v: Value): Option<Value> {
    if k.slotType.EndTime? && v.StrV? then
      match TimeToMinutes(v.s) case None => None case Some(m) => Some(IntV(m))
    else Some(v)
  }

  /** The slot of a place; empty if there is none yet. */
  function SlotAt(data: ScheduleData, k: Key): Slot {
    if k.profile in data && k.day in data[k.profile] && k.no in data[k.profile][k.day]
    then data[k.profile][k.day][k.no] else map[]
  }

  function PutSlot(data: ScheduleData, k: Key, slot: Slot): ScheduleData {
    var program := if k.profile in data then data[k.profile] else map[];
    var weekday := if k.day in program then program[k.day] else map[];
    data[k.profile := program[k.day := weekday[k.no := slot]]]
  }

  lemma FlatHas(data: ScheduleData, k: Key)
    ensures k in Flat(data) <==> k.slotType in SlotAt(data, k)
    ensures k in Flat(data) ==> Flat(data)[k] == SlotAt(data, k)[k.slotType]
  {
  }

  lemma SamePlace(data: ScheduleData, k: Key, x: Key)
    ensures x.(slotType := k.slotType) == k ==> SlotAt(data, x) == SlotAt(data, k)
  {
  }

  lemma PutSlotAt(data: ScheduleData, k: Key, slot: Slot, x: Key)
    ensures SlotAt(PutSlot(data, k, slot), x) == if x.(slotType := k.slotType) == k then slot else SlotAt(data, x)
  {
  }

  /** Putting a slot changes the flat dictionary in the places of that slot only. */
  lemma PutSlotFlat(data: ScheduleData, k: Key, slot: Slot, flat: map<Key, Value>)
    requires forall x :: x in flat <==>
      x.slotType in (if x.(slotType := k.slotType) == k then slot else SlotAt(data, x))
    requires forall x <- flat ::
      flat[x] == (if x.(slotType := k.slotType) == k then slot else SlotAt(data, x))[x.slotType]
    ensures Flat(PutSlot(data, k, slot)) == flat
  {
    hide Flat, PutSlot, SlotAt;
    var put := PutSlot(data, k, slot);
    forall x
      ensures x in Flat(put) <==> x in flat
      ensures x in flat ==> Flat(put)[x] == flat[x]
    {
      FlatHas(put, x);
      PutSlotAt(data, k, slot, x);
    }
  }

  /** `_add_to_schedule_data`: the first value given for a place stays. */
  function AddToSchedule(data: ScheduleData, k: Key, v: Value): Option<ScheduleData> {
    var slot := SlotAt(data, k);
    if k.slotType in slot then Some(PutSlot(data, k, slot))
    else match Cook(k, v)
      case None => None
      case Some(cooked) => Some(PutSlot(data, k, slot[k.slotType := cooked]))
  }

  lemma AddToScheduleFlat(data: ScheduleData, k: Key, v: Value)
    ensures k in Flat(data) ==> AddToSchedule(data, k, v).Some? && Flat(AddToSchedule(data, k, v).value) == Flat(data)
    ensures k !in Flat(data) ==> (AddToSchedule(data, k, v).Some? <==> Cook(k, v).Some?)
    ensures k !in Flat(data) && Cook(k, v).Some? ==>
      Flat(AddToSchedule(data, k, v).value) == Flat(data)[k := Cook(k, v).value]
  {
    hide Flat, PutSlot, SlotAt, Cook;
    forall x
      ensures x in Flat(data) <==> x.slotType in SlotAt(data, x)
      ensures x in Flat(data) ==> Flat(data)[x] == SlotAt(data, x)[x.slotType]
      ensures x.(slotType := k.slotType) == k ==> SlotAt(data, x) == SlotAt(data, k)
    {
      FlatHas(data, x);
      SamePlace(data, k, x);
    }
    var slot := SlotAt(data, k);
    if k in Flat(data) {
      PutSlotFlat(data, k, slot, Flat(data));
    } else if Cook(k, v).Some? {
      PutSlotFlat(data, k, slot[k.slotType := Cook(k, v).value], Flat(data)[k := Cook(k, v).value]);
    }
  }

  // ----- reading a paramset

  predicate Selected(profile: Option<Profile>, day: Option<Day>, k: Key) {
    (profile.Some? ==> profile.value == k.profile) && (day.Some? ==> day.value == k.day)
  }

  /** The entries of a paramset that belong to the schedule. */
  function RawSchedulePart(params: RawSchedule): RawSchedule {
    map name | name in params && NamePattern(name) :: params[name]
  }

  /** `data` holds exactly the selected entries of `params`, each in its place. */
  ghost predicate IsRead(params: RawSchedule, profile: Option<Profile>, day: Option<Day>, data: ScheduleData) {
    && (forall k :: k in Flat(data) <==> Regular(k) && Selected(profile, day, k) && RawName(k) in params)
    && (forall k <- Flat(data) :: Some(Flat(data)[k]) == Cook(k, params[RawName(k)]))
  }

  ghost predicate Readable(params: RawSchedule, profile: Option<Profile>, day: Option<Day>) {
    forall k :: Regular(k) && Selected(profile, day, k) && RawName(k) in params ==> Cook(k, params[RawName(k)]).Some?
  }

  /** `_get_schedule_profile` on the entries `_get_raw_schedule` keeps. */
  method ReadSchedule(params: RawSchedule, profile: Option<Profile>, day: Option<Day>) returns (r: Option<ScheduleData>)
    ensures r.Some? <==> Readable(params, profile, day)
    ensures r.Some? ==> IsRead(params, profile, day, r.value)
  {
    hide Split, RawName, KeyOf, Flat, Cook, AddToSchedule, NamePattern, Regular;
    var raw := RawSchedulePart(params);
    var data: ScheduleData := map[];
    FlatOfNothing();
    var todo := raw.Keys;
    while todo != {}
      invariant todo <= raw.Keys
      invariant forall k :: k in Flat(data) <==>
        Regular(k) && Selected(profile, day, k) && RawName(k) in raw && RawName(k) !in todo
      invariant forall k <- Flat(data) :: Some(Flat(data)[k]) == Cook(k, params[RawName(k)])
      decreases todo
    {
      var name :| name in todo;
      AcceptedName(name);
      var k := KeyOf(name).value;
      NamesDiffer(k);
      if Selected(profile, day, k) {
        AddToScheduleFlat(data, k, raw[name]);
        var added := AddToSchedule(data, k, raw[name]);
        if added.None? {
          return None;
        }
        data := added.value;
      }
      todo := todo - {name};
    }
    forall k ensures Regular(k) && RawName(k) in params <==> Regular(k) && RawName(k) in raw {
      NameRoundTrip(k);
    }
    return Some(data);
  }

  lemma NamesDiffer(k: Key)
    requires Regular(k)
    ensures forall x :: Regular(x) && RawName(x) == RawName(k) ==> x == k
  {
    hide RawName, KeyOf, NamePattern;
    NameRoundTrip(k);
    forall x | Regular(x) && RawName(x) == RawName(k) ensures x == k {
      NameRoundTrip(x);
    }
  }

  lemma FlatOfNothing()
    ensures Flat(map[]) == map[]
  {
    assert Keys(map[]) == {};
  }

  /** Reading a part of the schedule gives exactly that part of what reading all of it gives. */
  lemma SelectionRestricts(params: RawSchedule, profile: Option<Profile>, day: Option<Day>, all: ScheduleData,
                           part: ScheduleData, k: Key)
    requires IsRead(params, None, None, all) && IsRead(params, profile, day, part)
    ensures k in Flat(part) <==>
      k in Flat(all) && (profile == None || profile == Some(k.profile)) && (day == None || day == Some(k.day))
    ensures k in Flat(part) ==> Flat(part)[k] == Flat(all)[k]
  {
    hide Flat, RawName, Cook;
  }

  lemma NameOfMonday()
    ensures RawName(Key(P1, Monday, 3, EndTime)) == "P1_ENDTIME_MONDAY_3"
    ensures RawName(Key(P6, Sunday, 13, Temperature)) == "P6_TEMPERATURE_SUNDAY_13"
  {
    assert Print(13, 10) == "13" by { assert Print(1, 10) == "1"; }
  }

  // ----- writing a paramset

  /** `raw` holds exactly the values of `flat`, each under the name of its place. */
  ghost predicate IsPrinted(flat: map<Key, Value>, raw: RawSchedule) {
    && (forall name <- raw :: exists k :: k in flat && name == RawName(k))
    && (forall k <- flat :: RawName(k) in raw && Some(raw[RawName(k)]) == Uncook(k, flat[k]))
  }

  ghost predicate Printable(flat: map<Key, Value>) {
    forall k <- flat :: Regular(k) && Uncook(k, flat[k]).Some?
  }

  lemma PrintOne(flat: map<Key, Value>, raw: RawSchedule, k: Key, v: Value)
    requires Printable(flat) && IsPrinted(flat, raw)
    requires k !in flat && Regular(k) && Uncook(k, v).Some?
    ensures Printable(flat[k := v]) && IsPrinted(flat[k := v], raw[RawName(k) := Uncook(k, v).value])
  {
    hide Uncook, RawName;
    NameRoundTrip(k);
    forall x <- flat ensures RawName(x) != RawName(k) {
      NameRoundTrip(x);
    }
    var flat', raw' := flat[k := v], raw[RawName(k) := Uncook(k, v).value];
    forall name <- raw' ensures exists x :: x in flat' && name == RawName(x) {
      if name == RawName(k) {
        assert k in flat';
      } else {
        var x :| x in flat && name == RawName(x);
        assert x in flat';
      }
    }
  }

  lemma FlatKeys(data: ScheduleData)
    ensures Flat(data).Keys == Keys(data)
    ensures forall k <- Keys(data) :: Flat(data)[k] == data[k.profile][k.day][k.no][k.slotType]
  {
  }

  lemma KeysHave(data: ScheduleData, k: Key)
    requires k in Keys(data)
    ensures k.profile in data && k.day in data[k.profile] && k.no in data[k.profile][k.day]
    ensures k.slotType in data[k.profile][k.day][k.no]
  {
  }

  /** `_get_raw_schedule_paramset` */
  method PrintSchedule(data: ScheduleData) returns (r: Option<RawSchedule>)
    ensures r.Some? <==> Printable(Flat(data))
    ensures r.Some? ==> IsPrinted(Flat(data), r.value)
  {
    hide Split, RawName, KeyOf, Uncook, NamePattern, Printable, IsPrinted, Flat, Keys;
    FlatKeys(data);
    var raw: RawSchedule := map[];
    var todo := Keys(data);
    ghost var done: map<Key, Value> := map[];
    PrintNothing();
    while todo != {}
      invariant todo <= Keys(data) && done == Flat(data) - todo
      invariant Printable(done) && IsPrinted(done, raw)
      decreases |todo|
    {
      var k :| k in todo;
      KeysHave(data, k);
      var value := data[k.profile][k.day][k.no][k.slotType];
      assert value == Flat(data)[k];
      NameRoundTrip(k);
      if !NamePattern(RawName(k)) {
        NotPrintable(Flat(data), k);
        return None;
      }
      var rawValue := Uncook(k, value);
      if rawValue.None? {
        NotPrintable(Flat(data), k);
        return None;
      }
      PrintOne(done, raw, k, value);
      raw := raw[RawName(k) := rawValue.value];
      todo := todo - {k};
      done := done[k := value];
    }
    assert done == Flat(data);
    return Some(raw);
  }

  lemma PrintNothing()
    ensures Printable(map[]) && IsPrinted(map[], map[])
  {
  }

  lemma NotPrintable(flat: map<Key, Value>, k: Key)
    requires k in flat && !(Regular(k) && Uncook(k, flat[k]).Some?)
    ensures !Printable(flat)
  {
  }

  // ----- round trip and copy

  /** The backend delivers schedule values as numbers. */
  ghost predicate Numeric(params: RawSchedule) {
    forall k :: Regular(k) && RawName(k) in params ==> !params[RawName(k)].StrV?
  }

  /** Reading a number and printing it again gives the number; every readable end time lies between 00:00 and 24:59. */
  lemma CookRoundTrip(k: Key, v: Value)
    requires !v.StrV?
    ensures Cook(k, v).Some? <==> (k.slotType.EndTime? && v.IntV? ==> 0 <= v.n <= 1499)
    ensures Cook(k, v).Some? ==> Uncook(k, Cook(k, v).value) == Some(v)
  {
    hide MinutesToTime, TimeToMinutes;
    if v.IntV? {
      TimeRoundTrip(v.n);
    }
  }

  /** Reading a schedule and printing it gives back its entries, all of them and nothing else. */
  lemma ReadThenPrint(params: RawSchedule, data: ScheduleData, raw: RawSchedule)
    requires Numeric(params) && IsRead(params, None, None, data)
    ensures Printable(Flat(data))
    ensures IsPrinted(Flat(data), raw) <==> raw == RawSchedulePart(params)
  {
    hide RawName, KeyOf, NamePattern, Cook, Uncook, Flat;
    var flat, part := Flat(data), RawSchedulePart(params);
    forall k <- flat ensures Regular(k) && Uncook(k, flat[k]) == Some(params[RawName(k)]) && RawName(k) in part {
      CookRoundTrip(k, params[RawName(k)]);
      NameRoundTrip(k);
    }
    forall name <- part ensures exists k :: k in flat && name == RawName(k) {
      AcceptedName(name);
      assert KeyOf(name).value in flat;
    }
    if IsPrinted(flat, raw) {
      assert raw.Keys == part.Keys;
    }
  }

  /** A stored value after it has been printed and read again. */
  function Normal(k: Key, v: Value): Option<Value> {
    match Uncook(k, v)
    case None => None
    case Some(w) => Cook(k, w)
  }

  /** `again` is the flat schedule with its values normalised. */
  ghost predicate IsNormal(flat: map<Key, Value>, again: map<Key, Value>) {
    again.Keys == flat.Keys && forall k <- flat :: Some(again[k]) == Normal(k, flat[k])
  }

  /** Reading what was printed gives back every place of the schedule, with its value normalised; it fails exactly if
      some value has no normal form. */
  lemma PrintThenRead(data: ScheduleData, raw: RawSchedule, again: ScheduleData)
    requires Printable(Flat(data)) && IsPrinted(Flat(data), raw)
    ensures Readable(raw, None, None) <==> forall k <- Flat(data) :: Normal(k, Flat(data)[k]).Some?
    ensures IsRead(raw, None, None, again) <==> IsNormal(Flat(data), Flat(again))
  {
    hide RawName, KeyOf, NamePattern, Cook, Uncook, Flat;
    var flat := Flat(data);
    forall k | Regular(k)
      ensures RawName(k) in raw <==> k in flat
      ensures k in flat ==> Cook(k, raw[RawName(k)]) == Normal(k, flat[k])
    {
      NamesDiffer(k);
    }
  }

  /** Normal forms: an end time becomes the "hh:mm" of its minutes, and has one exactly up to 24:59; other values, and
      times that are in normal form, stay as they are. */
  lemma NormalForms(k: Key, v: Value)
    ensures !k.slotType.EndTime? || v.FloatV? ==> Normal(k, v) == Some(v)
    ensures k.slotType.EndTime? && v.StrV? ==>
      match TimeToMinutes(v.s)
      case None => Normal(k, v).None?
      case Some(m) =>
        && (Normal(k, v).Some? <==> m <= 1499)
        && (m <= 1499 ==> MinutesToTime(m).Some? && Normal(k, v) == Some(StrV(MinutesToTime(m).value)))
    ensures k.slotType.EndTime? && v.IntV? ==>
      && (Normal(k, v).Some? <==> 0 <= v.n <= 1499)
      && (0 <= v.n <= 1499 ==> MinutesToTime(v.n).Some? && Normal(k, v) == Some(StrV(MinutesToTime(v.n).value)))
    ensures Normal(k, v).Some? ==> Normal(k, Normal(k, v).value) == Normal(k, v)
  {
    hide TimeToMinutes, MinutesToTime;
    match v
    case StrV(s) =>
      if TimeToMinutes(s).Some? {
        TimeRoundTrip(TimeToMinutes(s).value);
      }
    case IntV(n) => TimeRoundTrip(n);
    case FloatV(_) =>
  }

  /** A time may go on after its minutes: "24:599" prints as 2039 minutes, which cannot be read again. */
  lemma LongTimeLost(profile: Profile, day: Day, no: int)
    ensures var k := Key(profile, day, no, EndTime);
      Uncook(k, StrV("24:599")) == Some(IntV(2039)) && Normal(k, StrV("24:599")).None?
  {
    hide Split, MinutesToTime;
    assert "24" + [':'] + "599" == "24:599";
    SplitTwo("24", ':', "599");
    assert Parse("24"[..1], 10) == Some(2);
    assert Parse("599"[..2][..1], 10) == Some(5) && Parse("599"[..2], 10) == Some(59);
    assert Parse("24", 10) == Some(24) && Parse("599", 10) == Some(599);
    TimeRoundTrip(2039);
  }
}
