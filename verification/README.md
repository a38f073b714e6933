# hahomematic: a verified model of its schedule, command and cache logic

hahomematic talks to Homematic and HomematicIP centrals. Between the backend and the application it keeps logic that is
easy to get subtly wrong: a compiler for thermostat week schedules, a collector that merges writes, a locked command
sequence for blinds, a cache of commands not yet confirmed, caches with derived indexes, a small line language that
un-ignores parameters, and supervision of the connection. This project models that logic in Dafny and proves what it
promises for all inputs, runs and interleavings.

| part | modules | main results |
|---|---|---|
| week schedules | `ScheduleTime`, `Schedule`, `ScheduleCompiler`, `ScheduleMeaning`, `ScheduleValidator`, `ScheduleRaw`, `ScheduleService` | the compiler accepts exactly the disjoint spans, its slots mean what the spans mean at every minute, its output passes the validator exactly under a stated condition; the flat form round-trips; copying and setting a weekday write exactly what they should |
| write collector | `Dicts`, `Collector`, `CollectorRefines` | the calls refine writing one by one; one call per group; orders ascend |
| blinds | `LevelCodec`, `CommandCache`, `Blind`, `BlindCarries`, `BlindRuns` | the codec rounds to a grid once; the cache answers exactly the unconfirmed values; no other command falls between a STOP and its coordinates in any interleaving; an axis that is not named is sent unchanged; every call gets through, and what a run sends is exactly what its calls ask for |
| description caches | `Addresses`, `DeviceDescriptions`, `ParamsetDescriptions` | raw data and derived indexes stay in step through adds, removals and loading |
| un-ignore lines | `UnIgnore`, `Visibility`, `VisibilityTables`, `VisibilityCache` | each built-in table hides exactly what it says; printed candidates read back and change exactly what they cover; loading is confluent and monotone |
| supervision | `Connection`, `PingPong`, `ValueCache` | availability, callback events, pings and throttled reads as functions of the whole history |
| colour temperature | `ColorTemp` | kelvin to level and back, with the exact error bound |

`Wrappers`, `Numerals`, `Text`, `Clock` and `ParamsetKeys` hold what the parts share.

How the model is laid out. Code that changes state is a class or a method with a loop, proved against a function that
describes its effect; the properties are then lemmas about that function or invariants of the class. Ghost fields record
the history where a property speaks of whole runs (`writes`, `history`, `callbacks`, `calls`, `sent`, `log`). For blinds
the code between two awaits is one step of a state machine, so that every interleaving of concurrent calls is a sequence
of steps. Dictionaries whose order shows in the result (the collector's) are sequences of pairs; the others are maps.
Answers of the backend, readings of the clock and built-in tables are parameters. Python exceptions are `None` or
`Failure`.

## Where the code does not do what one would expect

Each of these is a lemma with a concrete input or an exact condition.

- Spans with the same start: the last one replaces the others before anything is checked (`CollapseKeepsLast`).
- Spans with thirteen boundaries or more before midnight leave the end of the day without a slot, so that the base
  temperature is not applied there: `DayCoveredIff` is the exact condition, `TailNotCovered` an accepted input where
  it happens.
- The validator looks at slots 1 to 12 only, and passes an end of 00:00 after a later one (`ValidatorAccepts`).
  Accepted weekdays can therefore fall at any slot (`AcceptedMayFall`); `AcceptedRisesIff` is the exact condition for
  all thirteen.
- End times after 24:00 compile, but need not pass the validator, nor do more than thirteen boundaries
  (`CompiledPassesIff`, `LateSpanRejected`, `FourteenSlotsRejected`).
- Ages use the `seconds` of a time difference, which drops whole days. The command cache answers rightly within a day
  (`UnconfirmedIff`); `RightIff` says exactly when it does beyond, `StaleAfterADay` shows it wrong. The read cache
  throttles over any span of time (`OldEnough`), but an answer from it is recent only if it is less than a day old
  (`FreshIsRecent`, `FreshAfterADay`), and a ping can stay pending beyond a day (`ExpiredIff`, `PendingAfterADay`).
- A time string may go on after its minutes; such a time can be sent and not be read again (`LongTimeLost`).
- A client is not only cut off by four failures since its last initialisation: the failure count survives an
  initialisation, so one failure can be enough (`OneFailureAfterInit`). The four-failure rule holds after an
  initialisation exactly if the count was 0 when it was made (`FourFailuresIff`, `CutOffAfterInit`).
- A MASTER candidate printed with the channel wildcard has no effect (`MasterWildcardIdle`), and a candidate whose
  parameter starts with `ignore_` is taken for an ignored model; `ValuesCandidateIff` and `MasterCandidateIff` say
  exactly when a candidate works. A MASTER parameter given in the short format un-ignores the VALUES parameter of that
  name (`GivenMasterLineIff`, `BareWorks`).
- Removing a device leaves its key out of `_addresses` even if the raw list still has one of its channels; the index
  stays complete exactly if nothing of the device is left (`RemovalFits`, `ChannelLeftBehind`).

## Model

| member | source | states |
|---|---|---|
| ScheduleTime.TimeRoundTrip | hahomematic/model/custom/climate.py:1086-1110 | minutes have a time string exactly from 0 to 1499, of two digits, a colon and two digits, and reading that string gives the minutes back |
| ScheduleTime.TimeStandsFor | hahomematic/model/custom/climate.py:1098-1110 | an hour up to 24 with or without a leading zero, a colon, and two or more digits starting with 0 to 5 read as 60 times the hour plus the minutes |
| ScheduleTime.TimeRead | hahomematic/model/custom/climate.py:1098-1110 | nothing else is read as a time |
| ScheduleTime.OneDigitHour | hahomematic/const.py:58-58 | "5:00" reads as 300 minutes, and so for every one-digit hour |
| ScheduleCompiler.ConvertSimpleWeekday | hahomematic/model/custom/climate.py:576-636 | the loop over the sorted spans, with its early errors, computes `Convert`, whose meaning the lemmas of `ScheduleMeaning` give |
| ScheduleCompiler.FillUpWeekday | hahomematic/model/custom/climate.py:1124-1133 | the loop over slots 1 to 13 adds exactly the missing ones, ending at 24:00 with the base temperature |
| ScheduleCompiler.SortedSpans | hahomematic/model/custom/climate.py:1113-1121 | sorting yields exactly the spans of the dictionary, with strictly ascending starts |
| ScheduleMeaning.CollapseKeepsLast | hahomematic/model/custom/climate.py:1113-1121 | the dictionary exists iff every start is readable, and holds for each start exactly the last span given for it |
| ScheduleMeaning.OrderIndependent | hahomematic/model/custom/climate.py:576-636 | permuting spans with distinct starts does not change the result, be it a weekday or an error |
| ScheduleMeaning.AcceptedIffDisjoint | hahomematic/model/custom/climate.py:580-625 | a span list is accepted iff base and temperatures are in range, every kept span starts before it ends, and no minute lies in two of them |
| ScheduleMeaning.RefusedBecause | hahomematic/model/custom/climate.py:580-625 | a refused list has its base out of range, or a first unreadable start, or a first span in order of start that does not fit behind those before it; the error says which and why |
| ScheduleMeaning.EmittedRise | hahomematic/model/custom/climate.py:586-634 | the emitted slots end at strictly increasing times, the last with the last span; their number is one per span and one per gap; temperatures stay in range |
| ScheduleMeaning.CompiledSlots | hahomematic/model/custom/climate.py:586-636 | the compiled slots are numbered from 1 without a gap: first the emitted ones, ending at strictly increasing times, then slots to 24:00 with the base temperature up to the thirteenth |
| ScheduleMeaning.SlotsEndAtBoundaries | hahomematic/model/custom/climate.py:595-634 | the emitted slots end exactly at the boundaries of the spans: the minutes where a span ends, and those where one starts and none ends |
| ScheduleMeaning.SlotsPassed | hahomematic/model/custom/climate.py:595-634 | there are as many emitted slots as boundaries, and the k-th ends by minute t iff k boundaries lie up to t |
| ScheduleMeaning.CompiledMeaning | hahomematic/model/custom/climate.py:576-636 | at every minute of the day the compiled weekday gives the temperature of the span covering it, else the base; it gives none exactly when thirteen boundaries of the spans are already passed |
| ScheduleMeaning.DayCoveredIff | hahomematic/model/custom/climate.py:1124-1133 | the whole day has a temperature iff at most twelve boundaries of the spans lie before midnight |
| ScheduleMeaning.TailNotCovered | hahomematic/model/custom/climate.py:576-636 | thirteen hourly spans from midnight are accepted, and at 13:00 no slot applies |
| ScheduleMeaning.SortedStays | hahomematic/model/custom/climate.py:1113-1121 | collapsing and sorting leave an already sorted list as it is |
| Schedule.WrittenTemperature | hahomematic/model/custom/climate.py:671-671 | a temperature given as text with one decimal counts as that temperature |
| Schedule.NumberReads | hahomematic/model/custom/climate.py:671-671 | digits with a point among them read as a number, with either sign or none |
| Schedule.NumberRead | hahomematic/model/custom/climate.py:671-671 | text read as a number is a sign or none, digits, and at most one point |
| Schedule.PointMoves | hahomematic/model/custom/climate.py:671-671 | moving the point one digit to the right makes the number ten times as large |
| Schedule.WholeTemperature | hahomematic/model/custom/climate.py:671-671 | a whole temperature counts the same as a number, as a float and as text |
| Schedule.NumberIsNoTime | hahomematic/model/custom/climate.py:677-678 | the text of a number is never read as a time |
| ScheduleValidator.ValidateWeekday | hahomematic/model/custom/climate.py:647-690 | the nested loops find the first fault as `WeekdayFault` describes it, which `ValidatorAccepts` characterises |
| ScheduleValidator.ValidatorAccepts | hahomematic/model/custom/climate.py:647-690 | a weekday passes iff it has thirteen slots, the first twelve are readable and in range, and each of them ends no earlier than the one before it or at 00:00 |
| ScheduleValidator.WeekdayRefusedBecause | hahomematic/model/custom/climate.py:647-690 | a refused weekday has not thirteen slots, or a first slot that is missing or at fault; the error says what is wrong with it |
| ScheduleValidator.AcceptedRisesIff | hahomematic/model/custom/climate.py:677-690 | the ends of all thirteen slots of an accepted weekday never fall iff none of the first twelve ends at 00:00 directly after a later end, and the thirteenth is there, readable and ends no earlier than the twelfth |
| ScheduleValidator.AcceptedMayFall | hahomematic/model/custom/climate.py:660-690 | for every slot from the second to the thirteenth there is an accepted weekday that falls at that slot and nowhere else |
| ScheduleValidator.CompiledPassesIff | hahomematic/model/custom/climate.py:550-563 | what the compiler produces passes the validator iff the spans have at most thirteen boundaries and none of the first twelve lies after 24:00 |
| ScheduleValidator.LateSpanRejected | hahomematic/model/custom/climate.py:550-563 | a span from 24:00 to 24:30 compiles and is then rejected |
| ScheduleValidator.FourteenSlotsRejected | hahomematic/model/custom/climate.py:550-563 | fourteen hourly spans compile and are then rejected for their number of slots |
| ScheduleRaw.NameRoundTrip | hahomematic/model/custom/climate.py:443-460 | reading a printed entry name gives its profile, day, slot and type back; the printed name matches the name pattern iff the slot is 1 to 13 and the type is an end time or a temperature |
| ScheduleRaw.AcceptedName | hahomematic/const.py:55-57 | every name matching the pattern is the printed name of the place it is read as |
| ScheduleRaw.NameOfMonday | hahomematic/const.py:55-57 | the names of two places, spelled out |
| ScheduleRaw.AddToScheduleFlat | hahomematic/model/custom/climate.py:1153-1171 | adding a value changes nothing if the place is taken, fails exactly on unreadable minutes, and otherwise adds just that one entry |
| ScheduleRaw.ReadSchedule | hahomematic/model/custom/climate.py:416-465 | reading succeeds iff all selected end times are readable, and then holds exactly the matching entries, each in its place |
| ScheduleRaw.SelectionRestricts | hahomematic/model/custom/climate.py:446-452 | reading one profile or day gives exactly that part of what reading everything gives |
| ScheduleRaw.PrintSchedule | hahomematic/model/custom/climate.py:1136-1150 | printing succeeds iff every place has a valid name and a readable time, and then yields exactly the entries of the schedule |
| ScheduleRaw.CookRoundTrip | hahomematic/model/custom/climate.py:1136-1171 | a raw number survives being stored and printed; an integer end time is readable iff it is 0 to 1499 |
| ScheduleRaw.ReadThenPrint | hahomematic/model/custom/climate.py:435-465 | printing a schedule that was read gives exactly the schedule entries of the paramset it was read from |
| ScheduleRaw.PrintThenRead | hahomematic/model/custom/climate.py:435-465 | reading what was printed gives every place of the schedule back with its value normalised, and fails iff some value has no normal form |
| ScheduleRaw.NormalForms | hahomematic/model/custom/climate.py:1086-1171 | an end time normalises to the hh:mm of its minutes and has a normal form iff those are at most 1499; other values and normal forms stay as they are |
| ScheduleRaw.LongTimeLost | hahomematic/model/custom/climate.py:1098-1110 | "24:599" passes for a time of 2039 minutes, which cannot be read back |
| ScheduleService.Rebuild | hahomematic/model/custom/climate.py:478-493 | re-adding every value keeps each place and its value with minutes turned into time strings; fails iff one of them is unreadable |
| ScheduleService.SendProfile | hahomematic/model/custom/climate.py:478-505 | what goes to the backend is exactly the profile's values, each under its name, times as minutes |
| ScheduleService.CopyProfile | hahomematic/model/custom/climate.py:361-397 | copying succeeds iff both devices are of one product group, source and target differ on the same device, and the source is readable; it writes exactly the source profile's raw entries under the target's names |
| ScheduleService.SentFollows | hahomematic/model/custom/climate.py:478-505 | following the raw entries sent, the device applies at every minute what the spans ask for, except where thirteen boundaries are already passed |
| ScheduleService.SetSimpleWeekday | hahomematic/model/custom/climate.py:520-563 | the service goes through iff conversion and validation do; it sends exactly the compiled weekday's entries, and they make the device follow the spans |
| Collector.CallParameterCollector.AddDataPoint | hahomematic/model/data_point.py:819-839 | after any run of adds the nested dictionaries hold, per paramset, order and channel, exactly the last value of each parameter |
| Collector.CallParameterCollector.SendData | hahomematic/model/data_point.py:841-867 | the three nested loops make exactly the calls of the plan, in its order |
| Collector.AddHolds | hahomematic/model/data_point.py:819-839 | one more write keeps the correspondence between the dictionaries and the writes added |
| Dicts.PutOrder | hahomematic/model/data_point.py:826-839 | a new key of a dictionary goes to the end, an existing one keeps its place |
| CollectorRefines.SendWrites | hahomematic/model/data_point.py:809-867 | the calls `send_data` makes leave any backend as the writes added to the collector, executed one by one in stable order, do |
| CollectorRefines.CollectorRefinesWrites | hahomematic/model/data_point.py:809-867 | the calls leave the backend as executing all writes stably sorted by order does |
| CollectorRefines.OneCallPerGroup | hahomematic/model/data_point.py:841-867 | a paramset, order and channel has a call iff something was written there, has only one, and it carries the last value per parameter |
| CollectorRefines.SentAsValueIff | hahomematic/model/data_point.py:846-866 | a group goes out as a single value iff it is for VALUES and all its writes were of one parameter, else as a paramset of its channel |
| CollectorRefines.PlanWellOrdered | hahomematic/model/data_point.py:845-850 | orders never fall within a paramset and no group appears twice |
| CollectorRefines.PlanSends | hahomematic/model/data_point.py:845-850 | a group of the plan carries what the dictionaries hold for it, and everything they hold has a group |
| CollectorRefines.StableSortSorts | hahomematic/model/data_point.py:847-847 | the reference order is ascending and keeps writes of one order as they were added |
| LevelCodec.ConvertCombinedParameter | hahomematic/converter.py:43-53 | the loop over the parts computes `ConvertParts`, which `ConvertedParts` characterises |
| LevelCodec.ConvertedParts | hahomematic/converter.py:22-53 | a text converts iff every part has one "=" and, if it names a level, a whole number; it then sets exactly the parameters named, each to the hundredths of the last part naming it |
| LevelCodec.HexRoundTrip | hahomematic/converter.py:15-40 | hexadecimal printing and parsing undo each other for every natural number |
| LevelCodec.HexWidth | hahomematic/converter.py:27-29 | the code of one byte has two digits |
| LevelCodec.HexCaseless | hahomematic/converter.py:15-19 | hexadecimal numbers are read in either letter case |
| LevelCodec.TruncateIs | hahomematic/converter.py:27-29 | truncation goes towards zero and loses less than one |
| LevelCodec.OneLevel | hahomematic/model/custom/cover.py:431-481 | one level alone gives its part of the combined value, none gives no combined value |
| LevelCodec.OtherTexts | hahomematic/converter.py:56-87 | parts that are no hexadecimal numbers stay text; texts without a pair, other parameters and values that are no text set nothing |
| LevelCodec.RfCodec | hahomematic/model/custom/cover.py:431-446 | decoding an encoded RF pair gives both levels on the grid of half percents, for all non-negative levels |
| LevelCodec.IpCodec | hahomematic/model/custom/cover.py:467-481 | decoding an encoded HmIP pair gives both levels on the grid of whole percents, for all non-negative levels |
| LevelCodec.GridLaws | hahomematic/converter.py:15-40 | the grid loses less than one step and rounding again loses nothing |
| LevelCodec.EncodedOnce | hahomematic/model/custom/cover.py:431-481 | encoding decoded levels gives the same text as before |
| CommandCache.CommandCache.AddSetValue | hahomematic/caches/dynamic.py:45-64 | a value is stored under its key, a combined one as the levels it decodes to; nothing else changes |
| CommandCache.CommandCache.AddPutParamset | hahomematic/caches/dynamic.py:66-80 | exactly the keys of the paramset are stored with their values and time |
| CommandCache.CommandCache.GetLastValueSend | hahomematic/caches/dynamic.py:96-108 | answers with the stored value while it is fresh, and drops the entry otherwise |
| CommandCache.CommandCache.RemoveLastValueSend | hahomematic/caches/dynamic.py:110-122 | drops the entry iff it is too old or carries the confirmed value |
| CommandCache.Remembered | hahomematic/caches/dynamic.py:45-122 | after every run an entry is the last value sent and unconfirmed; a missing one was never sent, confirmed, or too old |
| CommandCache.HeldIff | hahomematic/caches/dynamic.py:45-122 | after any run, whatever the clock does, the cache holds the last value sent, null or not, iff no read or event since has found it too old or confirmed it |
| CommandCache.AnswerIff | hahomematic/caches/dynamic.py:96-108 | after any run the answer is v iff v is the last value sent, its age counts as fresh, and nothing has dropped it since |
| CommandCache.RightIff | hahomematic/support.py:264-269 | the answer is what it is meant to be iff it is not the case that the last value sent, dropped by nobody, is at least a day old with less than a minute beyond whole days |
| CommandCache.UnconfirmedIff | hahomematic/model/generic/data_point.py:60-66 | within a day, the answer is v iff v is the last value sent, sent less than 60 seconds ago, and no event has carried v since |
| CommandCache.StaleAfterADay | hahomematic/support.py:264-269 | a day and ten seconds after a send its value still counts as unconfirmed |
| Blind.StepKeepsInv | hahomematic/model/custom/cover.py:305-392 | every step between two awaits keeps the lock with one call at most and the STOPs paired with their coordinates |
| Blind.ChoicesMade | hahomematic/model/custom/cover.py:318-335 | every pair sent was chosen in the step of the run in which its call took the lock, from the targets and channel levels of the state then |
| Blind.LockedOnce | hahomematic/model/custom/cover.py:318-341 | a call takes the lock in at most one step of a run |
| Blind.NothingBetween | hahomematic/model/custom/cover.py:316-341 | in every interleaving of calls, failures, cancellations and events, nothing is sent between a call's STOP and its coordinates, and a STOP precedes them iff an axis not named had an unconfirmed target in the command cache in the one step in which the call took the lock |
| BlindCarries.CommandMeans | hahomematic/model/custom/cover.py:344-359 | the command sent, decoded, is the pair of levels on the device's grid, combined or not |
| BlindCarries.CommandRecorded | hahomematic/caches/dynamic.py:45-94 | sending a pair records both axes in the command cache |
| BlindCarries.UnnamedAxisUnchanged | hahomematic/model/custom/cover.py:269-359 | in every run in which each call that leaves out an axis comes within a minute of the transmission before and no event confirms, each pair the device takes carries per axis the grid value last asked for, or of the level the channel had when the call of the first pair took the lock |
| BlindCarries.AxisCarried | hahomematic/model/custom/cover.py:305-342 | by induction over what was sent: the last pair taken carries the grid value last named on each axis |
| BlindRuns.TraceIsSendings | hahomematic/model/custom/cover.py:341-392 | a run sends exactly one command per sending step, in their order: STOP for a stop, a command decoding to the chosen pair for coordinates |
| BlindRuns.FinishedHasSent | hahomematic/model/custom/cover.py:305-392 | a call that is not cancelled finishes only after its pair, a stop only after its STOP, for the request it was called with |
| BlindRuns.HolderCanSend | hahomematic/model/custom/cover.py:318-341 | the holder of the lock can always send exactly one kind of command, a waiting call can take a free lock, a new call can always be made |
| BlindRuns.CallGoesThrough | hahomematic/model/custom/cover.py:316-392 | from every reachable state a waiting call left alone finishes and frees the lock, having sent a STOP iff it must and the pair due: named, else target, else channel level |
| BlindRuns.CancelledCall | hahomematic/model/custom/cover.py:318-341 | a cancelled call finishes, gives the lock back if it holds it, and sends nothing |
| BlindRuns.SendsAre | hahomematic/caches/dynamic.py:45-122 | the command cache in a run is that of the reads, sends and events of its steps |
| BlindRuns.TargetIff | hahomematic/model/custom/cover.py:269-282 | an axis has a target iff that is the last value the device took for it, under a minute old, which no read or event has dropped |
| BlindRuns.ChannelIs | hahomematic/model/custom/cover.py:257-263 | the channel levels are those last reported |
| BlindRuns.TwoCallsRun | hahomematic/model/custom/cover.py:305-359 | a concrete quiet run: the second call stops the blind and sends the first call's level again |
| Addresses.AddressRoundTrip | hahomematic/support.py:209-262 | splitting a channel address gives the device and the channel number it was joined from |
| Addresses.SplittableIff | hahomematic/support.py:254-261 | addresses that can be split are those without a colon and those of a device, one colon, and a numeral or "None" |
| Addresses.NoNumber | hahomematic/support.py:254-261 | "None" behind the colon counts as no number |
| DeviceDescriptions.DeviceDescriptionCache.AddDeviceDescription | hahomematic/caches/persistent.py:152-167 | the description replaces any of the same address at the end of the list; the invariant and a complete address index are kept; other interfaces are untouched |
| DeviceDescriptions.DeviceDescriptionCache.RemoveDevice | hahomematic/caches/persistent.py:173-178 | the device and its known channels leave list and indexes; the address index stays complete iff nothing of the device is left in the list |
| DeviceDescriptions.DeviceDescriptionCache.Remove | hahomematic/caches/persistent.py:180-195 | exactly the given addresses leave the list and the descriptions, exactly the given devices the address index |
| DeviceDescriptions.DeviceDescriptionCache.Convert | hahomematic/caches/persistent.py:248-266 | a description is indexed by its address, and its device is known afterwards |
| DeviceDescriptions.DeviceDescriptionCache.Load | hahomematic/caches/persistent.py:235-279 | after loading into a fresh cache both indexes agree with the list of every interface |
| DeviceDescriptions.RemovalFits | hahomematic/caches/persistent.py:173-195 | a removal keeps list and indexes in step, and says exactly when the address index stays complete |
| DeviceDescriptions.ChannelLeftBehind | hahomematic/caches/persistent.py:173-195 | a removal naming only the device leaves its channel in the list and the address index incomplete |
| DeviceDescriptions.AdditionFits | hahomematic/caches/persistent.py:152-167 | an addition keeps addresses unique, the descriptions keyed by address, and a complete address index complete |
| DeviceDescriptions.WithoutByAddress | hahomematic/caches/persistent.py:180-195 | removing from the list and removing from the keyed descriptions come to the same |
| DeviceDescriptions.WithoutConcat | hahomematic/caches/persistent.py:180-195 | leaving out addresses works entry by entry and keeps the order |
| DeviceDescriptions.ByAddressExact | hahomematic/caches/persistent.py:201-213 | with unique addresses a lookup finds a description iff the list has it |
| ParamsetDescriptions.ParamsetDescriptionCache.Add | hahomematic/caches/persistent.py:308-329 | the paramset is put in its place and the index gains exactly the channel number for each of its parameters; containment is kept |
| ParamsetDescriptions.ParamsetDescriptionCache.RemoveDevice | hahomematic/caches/persistent.py:331-336 | exactly the device's channels of that interface go; the index stays and still contains everything |
| ParamsetDescriptions.ParamsetDescriptionCache.Load | hahomematic/caches/persistent.py:405-437 | after a fresh load the index holds exactly what the paramsets say |
| ParamsetDescriptions.ParamsetDescriptionCache.IsInMultipleChannels | hahomematic/caches/persistent.py:377-385 | true iff the address is a channel's and its device has more than one channel number for the parameter in the index |
| ParamsetDescriptions.NotInMultipleChannels | hahomematic/caches/persistent.py:377-385 | when the answer is no, all channels of the device with the parameter have the same number |
| ParamsetDescriptions.InMultipleChannels | hahomematic/caches/persistent.py:377-437 | after a fresh load the answer is yes iff two channel numbers have the parameter |
| Text.LowerAlphabet | hahomematic/caches/visibility.py:563-563 | the letters A to Z are lowered, other characters stay |
| UnIgnore.CandidateRoundTrip | hahomematic/caches/visibility.py:524-607 | a printed candidate reads back as lower-cased model, channel, parameter and paramset key; only the wildcard for everything collapses to the bare parameter |
| UnIgnore.GetParameters | hahomematic/central/__init__.py:1262-1314 | the lines, short or full, are exactly those of the parameters that allow the operations and, if asked for, are candidates |
| UnIgnore.ListedIff | hahomematic/central/__init__.py:1272-1297 | which parameters are listed, by operations, data point and the parameters never offered |
| UnIgnore.FullLineReads | hahomematic/central/__init__.py:1299-1312 | a full line reads as the model of its device, its channel or the wildcard, its parameter and paramset |
| UnIgnore.OtherLines | hahomematic/central/__init__.py:1274-1312 | a short line is the parameter; an unknown model is printed as None |
| Visibility.LoadIsSum | hahomematic/caches/visibility.py:723-725 | loading fails iff one line raises on its own, and otherwise gives the least rules that include what each line adds |
| Visibility.LoadConfluent | hahomematic/caches/visibility.py:723-725 | the same lines in any order and number load alike and give the same rules, hence the same lookups |
| Visibility.AddingIsMonotone | hahomematic/caches/visibility.py:496-522 | a further line never makes an un-ignored parameter ignored, a relevant paramset irrelevant or an ignored model seen |
| Visibility.IgnoredFactors | hahomematic/caches/visibility.py:338-400 | a parameter is ignored iff the built-in tables alone ignore it and no line un-ignores it |
| VisibilityTables.NothingWithoutTables | hahomematic/caches/visibility.py:338-400 | without tables nothing is ignored, without lines nothing is un-ignored and only VALUES is relevant |
| VisibilityTables.OtherParamsetsSeen | hahomematic/caches/visibility.py:338-400 | parameters of LINK and SERVICE are never ignored, nor their paramsets relevant |
| VisibilityTables.NameTables | hahomematic/caches/visibility.py:357-365 | the name tables hide exactly the parameters named, or starting or ending so, that are not required and not un-ignored |
| VisibilityTables.DeviceTable | hahomematic/caches/visibility.py:366-369 | the table by device hides its parameters exactly on models that start like one of its entries |
| VisibilityTables.EventTable | hahomematic/caches/visibility.py:370-376 | the table of events hides what the first entry starting the model names, or for other models what is named like an entry |
| VisibilityTables.ChannelTable | hahomematic/caches/visibility.py:379-382 | the table of channels hides its parameters exactly on all other channels |
| VisibilityTables.MasterTable | hahomematic/caches/visibility.py:383-400 | a MASTER parameter is hidden iff the table knows the model and neither it nor a line names the parameter for the channel |
| VisibilityTables.UnIgnoredByTables | hahomematic/caches/visibility.py:444-486 | the tables un-ignore exactly by the first entry the model starts, and for MASTER by the channel's list |
| VisibilityTables.UnIgnoredByLines | hahomematic/caches/visibility.py:414-441 | the lines un-ignore by a bare VALUES name, by the channel's rule, and for VALUES by the rules with wildcards |
| VisibilityTables.CandidateChanges | hahomematic/caches/visibility.py:402-640 | a usable candidate un-ignores exactly what its model, channel, paramset and parameter cover, and nothing else |
| VisibilityTables.CandidateRelevance | hahomematic/caches/visibility.py:609-686 | a usable candidate makes relevant exactly MASTER of its channel on the models its model starts |
| VisibilityTables.LineRead | hahomematic/caches/visibility.py:524-607 | a line read as a rule, a bare name or an unknown paramset has just that form |
| VisibilityTables.SilentLines | hahomematic/caches/visibility.py:496-522 | blank and unsupported lines change nothing; an unknown paramset raises |
| Visibility.GivenLineWorks | hahomematic/central/__init__.py:1262-1314 | every usable VALUES line `get_parameters` gives, short or full, un-ignores its parameter where it was given for |
| Visibility.GivenMasterLineIff | hahomematic/central/__init__.py:1262-1314 | a MASTER line `get_parameters` gives lifts the ignoring of its parameter on its channel iff it is usable, in the full format, without the channel wildcard, and its model is not the wildcard |
| Visibility.BareWorks | hahomematic/caches/visibility.py:496-510 | a bare name un-ignores the VALUES parameter of that name on every channel of every model |
| Visibility.ValuesCandidateIff | hahomematic/caches/visibility.py:402-522 | a VALUES candidate lifts the ignoring of a parameter iff its line has no "#", does not start with `ignore_`, and is not the empty name for everything |
| Visibility.MasterCandidateIff | hahomematic/caches/visibility.py:496-640 | a MASTER candidate lifts the ignoring of a parameter iff its line is usable, its channel is no wildcard and its model is not the wildcard |
| Visibility.UnusableIdle | hahomematic/caches/visibility.py:496-505 | a line with "#" or starting with `ignore_` leaves every rule and answer about parameters as it was |
| Visibility.ValuesCandidateWorks | hahomematic/caches/visibility.py:402-494 | a VALUES candidate makes its parameter un-ignored and not ignored on its channel, or on every channel with the wildcard |
| Visibility.MasterCandidateWorks | hahomematic/caches/visibility.py:609-686 | a MASTER candidate with a channel or none does so on that channel, and makes the paramset relevant |
| Visibility.MasterWildcardIdle | hahomematic/caches/visibility.py:609-629 | a MASTER candidate with the channel wildcard changes nothing |
| Visibility.IgnoreLineIgnores | hahomematic/caches/visibility.py:329-336 | a line `ignore_MODEL` makes exactly the models starting like it ignored, besides those that were |
| Visibility.WildcardIsBare | hahomematic/caches/visibility.py:524-607 | `P:VALUES@all:all` has the effect of `P` |
| VisibilityCache.ParameterVisibilityCache.AddComplexEntry | hahomematic/caches/visibility.py:609-640 | the nested dictionaries gain exactly the one rule, and the relevant paramsets the one channel |
| VisibilityCache.ParameterVisibilityCache.AddLineToCache | hahomematic/caches/visibility.py:496-522 | the fields follow the effect of the line; a line that raises leaves them unchanged |
| VisibilityCache.ParameterVisibilityCache.LoadLines | hahomematic/caches/visibility.py:723-725 | loading the lines into the fields computes `Load`, and fails exactly when it does |
| VisibilityCache.ParameterVisibilityCache.IsNamed | hahomematic/caches/visibility.py:427-446 | the search through the nested dictionaries finds a rule iff one of the matching rules was added |
| Connection.StreakIs | hahomematic/client/__init__.py:304-323 | the failure count is the length of the trailing run of failed checks |
| Connection.CutOffIs | hahomematic/client/__init__.py:304-323 | a client is cut off iff some check was the fourth or later failure in a row and no initialisation came after it |
| Connection.CutOffAfterInit | hahomematic/client/__init__.py:189-215 | after an initialisation and any checks, the client is cut off iff four of them failed in a row, or the first ones failed and continue a streak from before it beyond three |
| Connection.FailuresAfterInit | hahomematic/client/__init__.py:189-215 | n failures directly after an initialisation cut the client off iff n is positive and the streak before it plus n exceeds three |
| Connection.FourFailuresIff | hahomematic/client/__init__.py:189-215 | that it takes four failures in a row since an initialisation holds for all that may follow iff the failure count was 0 when it was made |
| Connection.OneFailureAfterInit | hahomematic/client/__init__.py:189-215 | directly after an initialisation one failure cuts the client off iff three had failed in a row before |
| Connection.Client.MarkAllDevices | hahomematic/client/__init__.py:249-268 | exactly the devices of this interface follow the availability |
| Connection.Client.IsConnected | hahomematic/client/__init__.py:304-323 | a check extends the history; the invariant ties count, availability and forced devices to it; the time stamp is renewed but for JSON-RPC clients; the answer is exact |
| Connection.Client.ProxyInit | hahomematic/client/__init__.py:189-215 | a successful initialisation makes client and devices available again; a failed one changes neither |
| Connection.Client.ProxyDeInit | hahomematic/client/__init__.py:217-241 | skipped when nothing is initialised; availability is untouched |
| Connection.Client.ProxyReInit | hahomematic/client/__init__.py:243-247 | initialises unless the de-initialisation failed |
| Connection.Client.Reconnect | hahomematic/client/__init__.py:270-286 | it goes through iff the client is found connected, and the history shows exactly when an initialisation follows |
| Connection.Client.IsCallbackAlive | hahomematic/client/__init__.py:325-358 | an event is fired exactly when the answer changes; over every run they alternate False, True, starting with False |
| PingPong.PingPongCache.HandleSendPing | hahomematic/caches/dynamic.py:370-382 | pings are conserved; more than the allowed delta left fires their count, and warns iff no warning stands; fewer than half of it fires 0; else nothing; with more than the delta pending a warning stands |
| PingPong.PingPongCache.HandleReceivedPong | hahomematic/caches/dynamic.py:384-410 | a pending ping becomes answered and is reported on as after a send; any other pong becomes unknown, with both sets and the flag exact |
| PingPong.PingPongCache.CheckAndFire | hahomematic/caches/dynamic.py:440-495 | what is fired and warned of is exact in the numbers left by the two clean-ups; fired counts are 0 or above the delta, warnings are apart |
| PingPong.PingPongCache.CleanupPending | hahomematic/caches/dynamic.py:412-424 | exactly the pings whose age, without whole days, is over the limit become expired |
| PingPong.PingPongCache.ExpiredIff | hahomematic/caches/dynamic.py:412-424 | a ping is judged by its real age iff it is not the case that it is too old, at least a day, and at most the limit beyond whole days; a ping judged expired is too old |
| PingPong.PingPongCache.PendingAfterADay | hahomematic/caches/dynamic.py:412-424 | a ping of a day and ten seconds stays pending |
| PingPong.PingPongCache.Clear | hahomematic/caches/dynamic.py:363-368 | everything pending counts as cleared and warnings may be given again |
| PingPong.AppendApart | hahomematic/caches/dynamic.py:473-485 | warnings stay separated by a fired 0 or a clear when they are given only while none stands |
| PingPong.AppendOrderly | hahomematic/caches/dynamic.py:463-485 | an allowed report keeps the counts lawful and the logged flag equal to "a warning stands" |
| ValueCache.ValueCache.GetValue | hahomematic/model/device.py:1019-1136 | a read answers with what the backend says and caches it under the keys it is for, a failure as a failure; a cached read answers what the last call that refreshed the key said; over every run a read that is not direct reaches the backend at least ten seconds after every call that refreshed its key |
| ValueCache.CallKeeps | hahomematic/model/device.py:1060-1066 | after a call every entry is what the last call that refreshed it said, stamped with its end |
| ValueCache.OldEnough | hahomematic/support.py:264-269 | an entry no longer valid is at least ten seconds old, over any span of time |
| ValueCache.ValueCache.FreshIsRecent | hahomematic/support.py:264-269 | an answer given from the device cache is less than ten seconds old iff it is less than a day old |
| ValueCache.FreshAfterADay | hahomematic/support.py:264-269 | an entry of a day and five seconds counts as fresh |
| Clock.RecentIff | hahomematic/support.py:264-269 | a change counts as recent iff its age is less than the limit beyond some number of whole days |
| ColorTemp.MiredsRoundTrip | hahomematic/model/custom/light.py:436-460 | the level sent decodes to the mireds it was made from |
| ColorTemp.KelvinRoundTrip | hahomematic/model/custom/light.py:436-460 | setting k reads back k' with 0 <= k' - k <= 42, and setting k' reads back k' |
| ColorTemp.LevelsSent | hahomematic/model/custom/light.py:447-460 | levels sent lie between 0 at 2000 kelvin and 1 at 6535 kelvin and never fall with the temperature |
| ColorTemp.KelvinRead | hahomematic/model/custom/light.py:436-445 | no level and level 0 read as 2000 kelvin, level 1 as 6535 |

## Left out

Schedules
- Strings for `int()` are plain ASCII digits: signs, surrounding blanks, underscores and other Unicode digits are not
  read. The trailing newline that `$` tolerates at the end of a name is not modelled.
- ScheduleValidator.ValidateWeekday: a temperature given as text is read in plain decimal notation only; exponents,
  underscores, surrounding blanks, "nan" and "inf" count as unreadable, which is also a fault in hahomematic for the
  last two.
- ScheduleValidator.ValidatorAccepts: reads text temperatures in the same way.
- The error for a missing start time cannot be reached, because sorting already fails on it; sorting is where the
  model fails.
- The nested loops over profiles, days, slots and types are one loop over the places they visit.
- `copy_schedule`, the per-profile loops around the weekday operations, the flag for schedule support and the
  schedules' getters.
- ScheduleService.CopyProfile: raw values are numbers, as the type of the raw schedule says.

Collector
- Backend calls that fail, waiting for callbacks, and the set of keys `send_data` returns.
- `send_data` decides between one value and a paramset per channel; how the client then checks and converts values is
  not part of this model.

Blinds
- Levels are exact reals: binary floating point can lose one grid step. Negative levels are not covered by the codec
  lemmas.
- A call cancelled while its transmission is awaited may still have reached the device: a cancellation leaves no entry
  in the model's trace, and an entry that failed counts as not taken.
- A collector passed in by the caller, writes to the level data points that bypass the lock, the filters for unchanged
  states, and window drives and garage doors.
- Each operation of the command cache reads the clock once.

Caches
- Addresses that cannot be split (hahomematic raises on them) are excluded.
- The contents of the sets inside `_addresses`: adding a device again resets its set.
- `clear`, saving and its hash, and loading over a cache that is in use.
- What is known about a parameter beyond the fact that a paramset has it.

Un-ignore lines
- Lower-casing and digits are ASCII. `lru_cache` is transparent: lookups come after loading.
- `parameter_is_hidden` and the contents of the built-in tables.

Supervision
- `proxy_init` also clears the ping/pong cache and, for clients without XML-RPC, adds devices; a check also sends a
  ping to that cache. The parts are not linked.
- The warning about unknown pongs is a flag only. Pings have distinct time stamps.
- The central cache's answer is a parameter of a read, and the backend never returns the two marker strings.

Not modelled at all: transport, sessions, sockets and TLS, files and hashing, temporary values of data points, device
and parameter tables, names, hub entries and system variables, logging.
