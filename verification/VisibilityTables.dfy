/** What each built-in table does to the visibility of parameters, and what exactly a line changes. */
module VisibilityTables {
  import opened Wrappers
  import opened Text
  import opened ParamsetKeys
  import opened UnIgnore
  import opened Visibility

  // ----- looking up tables by model

  /** Entry `i` is the first whose key starts the model. */
  ghost predicate FirstPrefix<T>(table: seq<(string, T)>, i: int, model: string) {
    0 <= i < |table| && table[i].0 <= model && forall j :: 0 <= j < i ==> !(table[j].0 <= model)
  }

  ghost predicate NoPrefix<T>(table: seq<(string, T)>, model: string) {
    forall j :: 0 <= j < |table| ==> !(table[j].0 <= model)
  }

  lemma {:induction false} FirstForIs<T>(table: seq<(string, T)>, model: string)
    ensures FirstFor(table, model).None? <==> NoPrefix(table, model)
    ensures forall i :: FirstPrefix(table, i, model) ==> FirstFor(table, model) == Some(table[i].1)
    ensures FirstFor(table, model).Some? ==> exists i :: FirstPrefix(table, i, model)
  {
    if table != [] {
      FirstForIs(table[1..], model);
      assert forall j :: 0 < j < |table| ==> table[j] == table[1..][j - 1];
      if table[0].0 <= model {
        assert FirstPrefix(table, 0, model);
      } else {
        forall i | FirstPrefix(table, i, model) ensures FirstPrefix(table[1..], i - 1, model) {
        }
        if i :| FirstPrefix(table[1..], i, model) {
          assert FirstPrefix(table, i + 1, model);
        }
      }
    }
  }

  /** Entry `i` is the first whose key the model starts, in either case. */
  ghost predicate FirstStarted<T>(table: seq<(string, T)>, i: int, model: string) {
    && 0 <= i < |table| && Lower(model) <= Lower(table[i].0)
    && forall j :: 0 <= j < i ==> !(Lower(model) <= Lower(table[j].0))
  }

  lemma {:induction false} FirstStartedByIs<T>(table: seq<(string, T)>, model: string)
    ensures forall i :: FirstStarted(table, i, model) ==> FirstStartedBy(table, model) == Some(table[i].1)
    ensures FirstStartedBy(table, model).Some? ==> exists i :: FirstStarted(table, i, model)
  {
    hide Lower;
    if table != [] {
      FirstStartedByIs(table[1..], model);
      assert forall j :: 0 < j < |table| ==> table[j] == table[1..][j - 1];
      if Lower(model) <= Lower(table[0].0) {
        assert FirstStarted(table, 0, model);
      } else {
        forall i | FirstStarted(table, i, model) ensures FirstStarted(table[1..], i - 1, model) {
        }
        if i :| FirstStarted(table[1..], i, model) {
          assert FirstStarted(table, i + 1, model);
        }
      }
    }
  }

  // ----- what makes a VALUES parameter ignored

  const NO_TABLES := Tables({}, [], [], {}, map[], [], map[], [], [])

  /** Without tables nothing is ignored, no line un-ignores anything, and only VALUES is relevant. */
  lemma NothingWithoutTables(r: Rules, model: string, c: Channel, paramset: ParamsetKey, parameter: string)
    ensures !Ignored(NO_TABLES, r, model, c, paramset, parameter)
    ensures !UnIgnored(NO_TABLES, NO_RULES, model, c, paramset, parameter, false)
    ensures Relevant(NO_RULES, model, paramset, c) <==> paramset == Values
    ensures !ModelIgnored(NO_RULES, model)
  {
  }

  /** The tables speak of VALUES and MASTER only. */
  lemma OtherParamsetsSeen(t: Tables, r: Rules, model: string, c: Channel, paramset: ParamsetKey, parameter: string)
    requires paramset == Link || paramset == Service
    ensures !Ignored(t, r, model, c, paramset, parameter) && !Relevant(r, model, paramset, c)
  {
  }

  /** The parameter is named in the table of names, starts like one of the beginnings, or ends like one of the ends. */
  ghost predicate NamedInTables(t: Tables, parameter: string) {
    || parameter in t.ignored
    || (exists i, rest :: 0 <= i < |t.ignoredStarts| && parameter == t.ignoredStarts[i] + rest)
    || (exists i, rest :: 0 <= i < |t.ignoredEnds| && parameter == rest + t.ignoredEnds[i])
  }

  lemma NamedIs(t: Tables, parameter: string)
    ensures IgnoredByName(t, parameter) <==> NamedInTables(t, parameter)
  {
    forall i | 0 <= i < |t.ignoredStarts|
      ensures t.ignoredStarts[i] <= parameter <==> exists rest :: parameter == t.ignoredStarts[i] + rest
    {
      if t.ignoredStarts[i] <= parameter {
        assert parameter == t.ignoredStarts[i] + parameter[|t.ignoredStarts[i]|..];
      }
    }
    forall i | 0 <= i < |t.ignoredEnds|
      ensures EndsWith(parameter, t.ignoredEnds[i]) <==> exists rest :: parameter == rest + t.ignoredEnds[i]
    {
      if EndsWith(parameter, t.ignoredEnds[i]) {
        assert parameter == parameter[..|parameter| - |t.ignoredEnds[i]|] + t.ignoredEnds[i];
      }
    }
  }

  /** The tables of names: they hide a parameter that is not required and not un-ignored, on every channel and model. */
  lemma NameTables(t: Tables, r: Rules, model: string, c: Channel, parameter: string)
    ensures Ignored(t, r, model, c, Values, parameter) <==>
      || Ignored(t.(ignored := {}, ignoredStarts := [], ignoredEnds := []), r, model, c, Values, parameter)
      || (NamedInTables(t, parameter) && parameter !in t.required &&
          !UnIgnored(t, r, model, c, Values, parameter, false))
  {
    hide Lower, MatchesAny, EventSwitchedOff, IgnoredByName, NamedInTables, CustomUnIgnored;
    var without := t.(ignored := {}, ignoredStarts := [], ignoredEnds := []);
    NamedIs(t, parameter);
    assert !IgnoredByName(without, parameter) by { NamedNowhere(without, parameter); }
    SameUnIgnored(t, without, r, model, c, parameter);
    assert EventSwitchedOff(t, Lower(model), parameter) <==> EventSwitchedOff(without, Lower(model), parameter) by {
      SameEvents(t, without, model, parameter);
    }
  }

  lemma NamedNowhere(t: Tables, parameter: string)
    requires t.ignored == {} && t.ignoredStarts == [] && t.ignoredEnds == []
    ensures !IgnoredByName(t, parameter)
  {
  }

  lemma SameEvents(t: Tables, u: Tables, model: string, parameter: string)
    requires t.eventDevices == u.eventDevices
    ensures EventSwitchedOff(t, Lower(model), parameter) <==> EventSwitchedOff(u, Lower(model), parameter)
  {
  }

  lemma SameUnIgnored(t: Tables, u: Tables, r: Rules, model: string, c: Channel, parameter: string)
    requires t.unIgnoredByDevice == u.unIgnoredByDevice
    ensures UnIgnored(t, r, model, c, Values, parameter, false) <==> UnIgnored(u, r, model, c, Values, parameter, false)
  {
    hide Lower, SearchMatrix;
  }

  /** The table by device: it hides a parameter on the models that start with one of its entries, in either case. */
  lemma DeviceTable(t: Tables, r: Rules, model: string, c: Channel, parameter: string)
    ensures Ignored(t, r, model, c, Values, parameter) <==>
      || Ignored(t.(ignoredByDevice := map[]), r, model, c, Values, parameter)
      || (parameter in t.ignoredByDevice && !UnIgnored(t, r, model, c, Values, parameter, false) &&
          exists device :: device in t.ignoredByDevice[parameter] && Lower(device) <= Lower(model))
  {
    hide Lower, EventSwitchedOff, IgnoredByName, CustomUnIgnored;
    var without := t.(ignoredByDevice := map[]);
    LowerTwice(model);
    SameUnIgnored(t, without, r, model, c, parameter);
    SameNames(t, without, parameter);
    SameEvents(t, without, model, parameter);
  }

  lemma SameNames(t: Tables, u: Tables, parameter: string)
    requires t.ignored == u.ignored && t.ignoredStarts == u.ignoredStarts && t.ignoredEnds == u.ignoredEnds
    ensures IgnoredByName(t, parameter) <==> IgnoredByName(u, parameter)
  {
  }

  /** The table of events: the first entry that starts the model names the parameters it hides; for a model with no
      entry a parameter named like an entry is hidden. Names count in either case. */
  ghost predicate EventHidden(table: seq<(string, seq<string>)>, model: string, parameter: string) {
    || (exists i, e :: FirstPrefix(table, i, model) && e in table[i].1 && Lower(e) == Lower(parameter))
    || (NoPrefix(table, model) && exists i :: 0 <= i < |table| && Lower(table[i].0) == Lower(parameter))
  }

  lemma EventHiddenIs(t: Tables, model: string, parameter: string)
    ensures EventSwitchedOff(t, model, parameter) <==> EventHidden(t.eventDevices, model, parameter)
  {
    hide Lower;
    var table := t.eventDevices;
    FirstForIs(table, model);
    match FirstFor(table, model)
    case Some(events) =>
      var i :| FirstPrefix(table, i, model);
      assert forall j :: FirstPrefix(table, j, model) ==> j == i;
      assert table[i].1 == events;
    case None =>
      assert forall j :: 0 <= j < |table| ==> TableKeys(table)[j] == table[j].0;
      if k :| 0 <= k < |table| && Lower(table[k].0) == Lower(parameter) {
        assert Lower(TableKeys(table)[k]) == Lower(parameter);
      }
  }

  lemma EventTable(t: Tables, r: Rules, model: string, c: Channel, parameter: string)
    ensures Ignored(t, r, model, c, Values, parameter) <==>
      || Ignored(t.(eventDevices := []), r, model, c, Values, parameter)
      || (EventHidden(t.eventDevices, Lower(model), parameter) &&
          !UnIgnored(t, r, model, c, Values, parameter, false))
  {
    hide Lower, EventSwitchedOff, IgnoredByName, CustomUnIgnored, MatchesAny, EventHidden;
    var without := t.(eventDevices := []);
    SameUnIgnored(t, without, r, model, c, parameter);
    SameNames(t, without, parameter);
    EventHiddenIs(t, Lower(model), parameter);
    EventHiddenIs(without, Lower(model), parameter);
    assert !EventHidden([], Lower(model), parameter) by { NoEvents(Lower(model), parameter); }
  }

  lemma NoEvents(model: string, parameter: string)
    ensures !EventHidden([], model, parameter)
  {
  }

  /** The table of channels: it hides a parameter on all channels but the one it names. */
  lemma ChannelTable(t: Tables, r: Rules, model: string, c: Channel, parameter: string)
    ensures Ignored(t, r, model, c, Values, parameter) <==>
      || Ignored(t.(acceptOnChannel := map[]), r, model, c, Values, parameter)
      || (parameter in t.acceptOnChannel && c != Number(t.acceptOnChannel[parameter]) &&
          !UnIgnored(t, r, model, c, Values, parameter, false))
  {
    hide Lower, EventSwitchedOff, IgnoredByName, CustomUnIgnored, MatchesAny;
    var without := t.(acceptOnChannel := map[]);
    SameUnIgnored(t, without, r, model, c, parameter);
    SameNames(t, without, parameter);
    SameEvents(t, without, model, parameter);
  }

  // ----- MASTER

  /** The table of MASTER parameters lists the parameter for the channel, in the first entry that starts the model. */
  ghost predicate MasterListed(t: Tables, model: string, c: Channel, parameter: string) {
    exists i :: FirstPrefix(t.masterByDevice, i, model) &&
      c in t.masterByDevice[i].1 && parameter in t.masterByDevice[i].1[c]
  }

  lemma MasterParametersAre(t: Tables, model: string, c: Channel)
    ensures MasterParameters(t, model, c).None? <==> NoPrefix(t.masterByDevice, model)
    ensures forall p :: MasterParameters(t, model, c).Some? && p in MasterParameters(t, model, c).value <==>
      MasterListed(t, model, c, p)
  {
    FirstForIs(t.masterByDevice, model);
    if FirstFor(t.masterByDevice, model).Some? {
      var i :| FirstPrefix(t.masterByDevice, i, model);
      assert forall j :: FirstPrefix(t.masterByDevice, j, model) ==> j == i;
    }
  }

  /** On models the table knows, a MASTER parameter is hidden unless the table lists it for the channel or a line names
      it there; on other models none is hidden. */
  lemma MasterTable(t: Tables, r: Rules, model: string, c: Channel, parameter: string)
    ensures Ignored(t, r, model, c, Master, parameter) <==>
      && !NoPrefix(t.masterByDevice, Lower(model)) && !MasterListed(t, Lower(model), c, parameter)
      && Rule(Lower(model), c, Master, parameter) !in r.entries
  {
    hide Lower, MasterParameters, MasterListed;
    MasterParametersAre(t, Lower(model), c);
  }

  // ----- what is un-ignored

  /** The tables un-ignore by model: parameters for models whose name is the beginning of an entry, and the MASTER
      parameters listed for the channel. Asked for the lines only, the tables do not count. */
  lemma UnIgnoredByTables(t: Tables, r: Rules, model: string, c: Channel, paramset: ParamsetKey, parameter: string)
    ensures UnIgnored(t, r, model, c, paramset, parameter, false) <==>
      || UnIgnored(t, r, model, c, paramset, parameter, true)
      || (exists i :: FirstStarted(t.unIgnoredByDevice, i, Lower(model)) && parameter in t.unIgnoredByDevice[i].1)
      || (paramset == Master && MasterListed(t, Lower(model), c, parameter))
  {
    hide Lower, MasterParameters, MasterListed, NamedByRule, FirstStartedBy;
    MasterParametersAre(t, Lower(model), c);
    FirstStartedByIs(t.unIgnoredByDevice, Lower(model));
    if FirstStartedBy(t.unIgnoredByDevice, Lower(model)).Some? {
      var i :| FirstStarted(t.unIgnoredByDevice, i, Lower(model));
      assert forall j :: FirstStarted(t.unIgnoredByDevice, j, Lower(model)) ==> j == i;
    }
  }

  /** The lines un-ignore a VALUES parameter by its bare name, or by a rule for its channel or all, of its model or all;
      and a parameter of another paramset by a rule for just its channel of its model. */
  lemma UnIgnoredByLines(t: Tables, r: Rules, model: string, c: Channel, paramset: ParamsetKey, parameter: string)
    ensures UnIgnored(t, r, model, c, paramset, parameter, true) <==>
      || (paramset == Values && parameter in r.values)
      || Rule(Lower(model), c, paramset, parameter) in r.entries
      || (paramset == Values &&
          (|| Rule(Lower(model), Word("all"), Values, parameter) in r.entries
           || Rule("all", c, Values, parameter) in r.entries
           || Rule("all", Word("all"), Values, parameter) in r.entries))
  {
    hide Lower;
    var matrix := SearchMatrix(Lower(model), c, paramset);
    assert matrix[0] == (Lower(model), c);
    if paramset == Values {
      assert matrix[1] == (Lower(model), Word("all")) && matrix[2] == ("all", c) && matrix[3] == ("all", Word("all"));
    }
  }

  // ----- what exactly a line changes

  /** What a candidate was printed for covers the parameter: with the wildcards, which count for VALUES only. */
  predicate Covers(model: string, printed: Channel, paramset: ParamsetKey, parameter: string,
                   otherModel: string, c: Channel, otherParamset: ParamsetKey, other: string) {
    && other == parameter && otherParamset == paramset
    && if paramset == Values
       then (Lower(otherModel) == Lower(model) || Lower(model) == "all") && (c == printed || printed == Word("all"))
       else Lower(otherModel) == Lower(model) && c == printed &&
            (paramset == Master ==> !printed.Word? && Lower(model) != "all")
  }

  /** A usable candidate un-ignores exactly what it covers, and nothing else. */
  lemma CandidateChanges(t: Tables, r: Rules, parameter: string, paramset: ParamsetKey, model: string, printed: Channel,
                         otherModel: string, c: Channel, otherParamset: ParamsetKey, other: string, customOnly: bool)
    requires Plain(parameter) && Plain(model) && Printed(printed)
    requires Usable(Candidate(parameter, paramset, model, printed)) && !Empty(parameter, model, printed)
    ensures var after := Load(r, [Candidate(parameter, paramset, model, printed)]);
      && after.Some?
      && (UnIgnored(t, after.value, otherModel, c, otherParamset, other, customOnly) <==>
            || UnIgnored(t, r, otherModel, c, otherParamset, other, customOnly)
            || Covers(model, printed, paramset, parameter, otherModel, c, otherParamset, other))
  {
    hide Candidate, Lower, UnIgnored, ReadLine, Load, Usable, Covers, CustomUnIgnored;
    var line := Candidate(parameter, paramset, model, printed);
    CandidateAdds(r, parameter, paramset, model, printed);
    var after := Load(r, [line]).value;
    UnIgnoredByLines(t, r, otherModel, c, otherParamset, other);
    UnIgnoredByLines(t, after, otherModel, c, otherParamset, other);
    UnIgnoredByTables(t, r, otherModel, c, otherParamset, other);
    UnIgnoredByTables(t, after, otherModel, c, otherParamset, other);
    CoveredByRule(r, parameter, paramset, model, printed, otherModel, c, otherParamset, other);
  }

  /** The rules after a candidate. */
  function WithCandidate(r: Rules, parameter: string, paramset: ParamsetKey, model: string, c: Channel): Rules {
    if Lower(model) == WILDCARD && c == Word(WILDCARD) && paramset == Values
    then r.(values := r.values + {parameter})
    else AddEntry(r, Lower(model), c, paramset, parameter)
  }

  lemma CandidateAdds(r: Rules, parameter: string, paramset: ParamsetKey, model: string, c: Channel)
    requires Plain(parameter) && Plain(model) && Printed(c)
    requires Usable(Candidate(parameter, paramset, model, c)) && !Empty(parameter, model, c)
    ensures Load(r, [Candidate(parameter, paramset, model, c)]) == Some(WithCandidate(r, parameter, paramset, model, c))
  {
    hide Candidate, Lower, IsBlank, AddEntry;
    CandidateRoundTrip(parameter, paramset, model, c);
    CandidateNotBlank(parameter, paramset, model, c);
    LoadOne(r, Candidate(parameter, paramset, model, c));
  }

  /** The rules that un-ignore a parameter. */
  ghost predicate Names(r: Rules, model: string, c: Channel, paramset: ParamsetKey, parameter: string) {
    || (paramset == Values && parameter in r.values)
    || Rule(Lower(model), c, paramset, parameter) in r.entries
    || (paramset == Values &&
        (|| Rule(Lower(model), Word("all"), Values, parameter) in r.entries
         || Rule("all", c, Values, parameter) in r.entries
         || Rule("all", Word("all"), Values, parameter) in r.entries))
  }

  lemma CoveredByRule(r: Rules, parameter: string, paramset: ParamsetKey, model: string, printed: Channel,
                      otherModel: string, c: Channel, otherParamset: ParamsetKey, other: string)
    requires Printed(printed)
    ensures Names(WithCandidate(r, parameter, paramset, model, printed), otherModel, c, otherParamset, other) <==>
      || Names(r, otherModel, c, otherParamset, other)
      || Covers(model, printed, paramset, parameter, otherModel, c, otherParamset, other)
  {
    hide Lower;
  }

  /** A usable MASTER candidate makes MASTER relevant exactly for its channel on the models its model starts, and
      changes the relevance of nothing else. */
  lemma CandidateRelevance(r: Rules, parameter: string, paramset: ParamsetKey, model: string, printed: Channel,
                           otherModel: string, otherParamset: ParamsetKey, c: Channel)
    requires Plain(parameter) && Plain(model) && Printed(printed)
    requires Usable(Candidate(parameter, paramset, model, printed)) && !Empty(parameter, model, printed)
    ensures var after := Load(r, [Candidate(parameter, paramset, model, printed)]);
      && after.Some?
      && (Relevant(after.value, otherModel, otherParamset, c) <==>
            || Relevant(r, otherModel, otherParamset, c)
            || (paramset == Master && otherParamset == Master && !printed.Word? && c == printed && model != "" &&
                Lower(model) <= Lower(otherModel)))
  {
    hide Candidate, Lower, ReadLine, Load, Usable;
    CandidateAdds(r, parameter, paramset, model, printed);
    LowerTwice(model);
    var after := WithCandidate(r, parameter, paramset, model, printed);
    if paramset == Master && !printed.Word? {
      assert after.relevant == r.relevant + {(Lower(model), printed)};
      assert (Lower(model), printed) in after.relevant;
    } else {
      assert after.relevant == r.relevant;
    }
  }

  // ----- lines of other forms

  /** A line read as a rule is one printed for it, up to the case of the model; a bare parameter is the line itself or
      the one with the wildcards for everything; a line raises only for an unknown paramset. */
  lemma LineRead(line: string)
    ensures match ReadLine(line)
      case Entry(model, c, parameter, paramset) =>
        exists m, target :: line == parameter + ":" + KeyName(paramset) + "@" + m + ":" + target &&
          Lower(m) == model && ReadChannel(target) == c
      case Bare(parameter) => (line == parameter && Plain(line)) ||
        exists m :: line == parameter + ":VALUES@" + m + ":all" && Lower(m) == "all"
      case Crash => exists parameter, key, rest :: line == parameter + ":" + key + "@" + rest && KeyNamed(key).None?
      case Unsupported => true
  {
    hide Split, Lower, ReadChannel, KeyName, KeyNamed, Plain;
    if '@' !in line {
      assert ReadLine(line).Bare? ==> Plain(line) by { PlainLine(line); }
    } else if |Split(line, '@')| == 2 {
      var data := Split(line, '@');
      var param, target := Split(data[0], ':'), Split(data[1], ':');
      if |param| == 2 {
        LineParts(line);
        KeyRead(param[1]);
        WordRead(target[|target| - 1]);
      }
    }
  }

  lemma PlainLine(line: string)
    requires '@' !in line
    ensures ReadLine(line) == (if ':' in line then Unsupported else Bare(line)) && (':' !in line ==> Plain(line))
  {
  }

  lemma SplitsTwo(s: string, sep: char)
    requires |Split(s, sep)| == 2
    ensures s == Split(s, sep)[0] + [sep] + Split(s, sep)[1]
  {
    hide Split;
    var parts := Split(s, sep);
    JoinSplit(s, sep);
    JoinTwo(parts[0], sep, parts[1]);
    assert parts == [parts[0]] + [parts[1]];
  }

  lemma LineParts(line: string)
    requires |Split(line, '@')| == 2 && |Split(Split(line, '@')[0], ':')| == 2
    ensures var data := Split(line, '@'); var param, target := Split(data[0], ':'), Split(data[1], ':');
      && line == param[0] + ":" + param[1] + "@" + data[1]
      && (|target| == 2 ==> line == param[0] + ":" + param[1] + "@" + target[0] + ":" + target[1])
  {
    hide Split;
    var data := Split(line, '@');
    SplitsTwo(line, '@');
    SplitsTwo(data[0], ':');
    if |Split(data[1], ':')| == 2 {
      SplitsTwo(data[1], ':');
      var target := Split(data[1], ':');
      assert data[0] + ['@'] + (target[0] + [':'] + target[1]) == data[0] + "@" + target[0] + ":" + target[1];
    }
  }

  lemma KeyRead(key: string)
    ensures KeyNamed(key).Some? ==> KeyName(KeyNamed(key).value) == key
    ensures KeyName(Values) == "VALUES"
  {
  }

  lemma WordRead(s: string)
    ensures ReadChannel(s).Word? ==> ReadChannel(s) == Word(s)
  {
  }

  /** Lines that say nothing: blank ones, and those of no supported form. A line with an unknown paramset raises. */
  lemma SilentLines(r: Rules, line: string)
    requires Usable(line)
    ensures IsBlank(line) || ReadLine(line).Unsupported? ==> Load(r, [line]) == Some(r)
    ensures !IsBlank(line) && ReadLine(line).Crash? ==> Load(r, [line]) == None
  {
    hide ReadLine, IsBlank;
    LoadOne(r, line);
  }
}
