/** Which parameters are ignored and which are un-ignored, by built-in tables and by the user's lines. */
module Visibility {
  import opened Wrappers
  import opened Text
  import opened ParamsetKeys
  import opened Addresses
  import opened UnIgnore

  /** The built-in tables; models in lower case where hahomematic lowers them. */
  datatype Tables = Tables(
    ignored: set<string>,
    ignoredEnds: seq<string>,
    ignoredStarts: seq<string>,
    required: set<string>,
    ignoredByDevice: map<string, seq<string>>,
    eventDevices: seq<(string, seq<string>)>,
    acceptOnChannel: map<string, nat>,
    masterByDevice: seq<(string, map<Channel, set<string>>)>,
    unIgnoredByDevice: seq<(string, seq<string>)>)

  datatype Rule = Rule(model: string, channel: Channel, paramset: ParamsetKey, parameter: string)

  /** What the user's lines have added up to. */
  datatype Rules = Rules(values: set<string>, entries: set<Rule>, relevant: set<(string, Channel)>,
                         ignoredModels: set<string>)

  // ----- lookups

  predicate StartsWithAny(s: string, prefixes: seq<string>) { exists i :: 0 <= i < |prefixes| && prefixes[i] <= s }

  predicate EndsWithAny(s: string, suffixes: seq<string>) {
    exists i :: 0 <= i < |suffixes| && EndsWith(s, suffixes[i])
  }

  /** `element_matches_key` with a collection: some element starts the name. */
  predicate MatchesAny(elements: seq<string>, name: string) {
    exists i :: 0 <= i < |elements| && Lower(elements[i]) <= Lower(name)
  }

  predicate EqualsAny(elements: seq<string>, name: string) {
    exists i :: 0 <= i < |elements| && Lower(elements[i]) == Lower(name)
  }

  /** The first entry whose key starts the model. */
  function FirstFor<T>(table: seq<(string, T)>, model: string): Option<T> {
    if table == [] then None
    else if table[0].0 <= model then Some(table[0].1)
    else FirstFor(table[1..], model)
  }

  /** `_get_value_from_dict_by_wildcard_key`: the first entry whose key the model starts. */
  function FirstStartedBy<T>(table: seq<(string, T)>, model: string): Option<T> {
    if table == [] then None
    else if Lower(model) <= Lower(table[0].0) then Some(table[0].1)
    else FirstStartedBy(table[1..], model)
  }

  function TableKeys<T>(table: seq<(string, T)>): seq<string> {
    seq(|table|, i requires 0 <= i < |table| => table[i].0)
  }

  /** Whether events of the parameter are switched off for the model; without an entry for the model the keys themselves
      are compared. */
  predicate EventSwitchedOff(t: Tables, model: string, parameter: string) {
    match FirstFor(t.eventDevices, model)
    case Some(events) => EqualsAny(events, parameter)
    case None => EqualsAny(TableKeys(t.eventDevices), parameter)
  }

  function MasterParameters(t: Tables, model: string, c: Channel): Option<set<string>> {
    match FirstFor(t.masterByDevice, model)
    case None => None
    case Some(channels) => Some(if c in channels then channels[c] else {})
  }

  function SearchMatrix(model: string, c: Channel, paramset: ParamsetKey): seq<(string, Channel)> {
    if paramset == Values then [(model, c), (model, Word(WILDCARD)), (WILDCARD, c), (WILDCARD, Word(WILDCARD))]
    else [(model, c)]
  }

  /** A line names the parameter for the channel, possibly with wildcards. */
  predicate NamedByRule(r: Rules, model: string, c: Channel, paramset: ParamsetKey, parameter: string) {
    exists i :: 0 <= i < |SearchMatrix(model, c, paramset)| &&
      var (m, no) := SearchMatrix(model, c, paramset)[i];
      Rule(m, no, paramset, parameter) in r.entries
  }

  /** `_parameter_is_un_ignored` */
  predicate CustomUnIgnored(t: Tables, r: Rules, model: string, c: Channel, paramset: ParamsetKey, parameter: string,
                            customOnly: bool) {
    || (paramset == Values && parameter in r.values)
    || NamedByRule(r, Lower(model), c, paramset, parameter)
    || (!customOnly && match FirstStartedBy(t.unIgnoredByDevice, Lower(model))
                       case None => false case Some(parameters) => parameter in parameters)
  }

  /** `parameter_is_un_ignored` */
  predicate UnIgnored(t: Tables, r: Rules, model: string, c: Channel, paramset: ParamsetKey, parameter: string,
                      customOnly: bool) {
    || (!customOnly && paramset == Master && match MasterParameters(t, Lower(model), c)
                       case None => false case Some(parameters) => parameter in parameters)
    || CustomUnIgnored(t, r, model, c, paramset, parameter, customOnly)
  }

  predicate IgnoredByName(t: Tables, parameter: string) {
    parameter in t.ignored || EndsWithAny(parameter, t.ignoredEnds) || StartsWithAny(parameter, t.ignoredStarts)
  }

  /** `parameter_is_ignored` */
  predicate Ignored(t: Tables, r: Rules, model: string, c: Channel, paramset: ParamsetKey, parameter: string) {
    if paramset == Values then
      && !UnIgnored(t, r, model, c, paramset, parameter, false)
      && (|| (IgnoredByName(t, parameter) && parameter !in t.required)
          || (parameter in t.ignoredByDevice && MatchesAny(t.ignoredByDevice[parameter], Lower(model)))
          || EventSwitchedOff(t, Lower(model), parameter)
          || (parameter in t.acceptOnChannel && Number(t.acceptOnChannel[parameter]) != c))
    else if paramset == Master then
      && Rule(Lower(model), c, Master, parameter) !in r.entries
      && match MasterParameters(t, Lower(model), c) case None => false case Some(parameters) => parameter !in parameters
    else false
  }

  /** `is_relevant_paramset` */
  predicate Relevant(r: Rules, model: string, paramset: ParamsetKey, c: Channel) {
    || paramset == Values
    || (paramset == Master && exists x :: x in r.relevant && x.1 == c && x.0 != "" && Lower(x.0) <= Lower(model))
  }

  /** `model_is_ignored` */
  predicate ModelIgnored(r: Rules, model: string) {
    exists m :: m in r.ignoredModels && Lower(m) <= Lower(Lower(model))
  }

  // ----- what a line adds

  /** `s.replace(pattern, "")` */
  function RemoveAll(s: string, pattern: string): string
    requires pattern != ""
    decreases |s|
  {
    if s == "" then ""
    else if pattern <= s then RemoveAll(s[|pattern|..], pattern)
    else [s[0]] + RemoveAll(s[1..], pattern)
  }

  function AddEntry(r: Rules, model: string, c: Channel, paramset: ParamsetKey, parameter: string): Rules {
    if paramset == Master then
      if c.Word? then r else
      var marked := r.(relevant := r.relevant + {(model, c)});
      if model == WILDCARD then marked else marked.(entries := r.entries + {Rule(model, c, paramset, parameter)})
    else r.(entries := r.entries + {Rule(model, c, paramset, parameter)})
  }

  /** `_add_line_to_cache`; None where it raises. */
  function AddLine(r: Rules, line: string): Option<Rules> {
    if IsBlank(line) then Some(r)
    else if IGNORE_MODEL <= Lower(line) then
      Some(r.(ignoredModels := r.ignoredModels + {RemoveAll(Lower(line), IGNORE_MODEL)}))
    else match ReadLine(line)
      case Unsupported => Some(r)
      case Crash => None
      case Bare(parameter) => Some(if parameter == "" then r else r.(values := r.values + {parameter}))
      case Entry(model, c, parameter, paramset) => Some(AddEntry(r, model, c, paramset, parameter))
  }

  /** `load`: lines with a comment sign are skipped. */
  function Load(r: Rules, lines: seq<string>): Option<Rules> {
    if lines == [] then Some(r) else
    match Load(r, lines[..|lines| - 1])
    case None => None
    case Some(before) => if '#' in lines[|lines| - 1] then Some(before) else AddLine(before, lines[|lines| - 1])
  }

  // ----- lines only add

  predicate Within(a: Rules, b: Rules) {
    a.values <= b.values && a.entries <= b.entries && a.relevant <= b.relevant && a.ignoredModels <= b.ignoredModels
  }

  function Union(a: Rules, b: Rules): Rules {
    Rules(a.values + b.values, a.entries + b.entries, a.relevant + b.relevant, a.ignoredModels + b.ignoredModels)
  }

  const NO_RULES := Rules({}, {}, {}, {})

  /** A line adds the same whatever was added before. */
  lemma LineAdds(r: Rules, line: string)
    ensures AddLine(r, line).Some? <==> AddLine(NO_RULES, line).Some?
    ensures AddLine(r, line).Some? ==> AddLine(r, line).value == Union(r, AddLine(NO_RULES, line).value)
  {
    hide ReadLine, Lower, RemoveAll, IsBlank;
  }

  /** No line of the list raises. */
  ghost predicate Loadable(lines: seq<string>) {
    forall i :: 0 <= i < |lines| && '#' !in lines[i] ==> AddLine(NO_RULES, lines[i]).Some?
  }

  /** `r` and everything one of the lines adds. */
  ghost predicate Includes(r: Rules, lines: seq<string>, all: Rules) {
    && Within(r, all)
    && (forall i :: 0 <= i < |lines| && '#' !in lines[i] && AddLine(NO_RULES, lines[i]).Some? ==>
          Within(AddLine(NO_RULES, lines[i]).value, all))
  }

  /** The rules a list of lines leads to, described without its order: the least that include all they add. */
  ghost predicate IsSum(r: Rules, lines: seq<string>, sum: Rules) {
    Includes(r, lines, sum) && forall other :: Includes(r, lines, other) ==> Within(sum, other)
  }

  lemma IncludesFront(r: Rules, lines: seq<string>, all: Rules)
    requires lines != []
    ensures var front, last := lines[..|lines| - 1], lines[|lines| - 1];
      Includes(r, lines, all) <==>
        Includes(r, front, all) &&
        ('#' !in last && AddLine(NO_RULES, last).Some? ==> Within(AddLine(NO_RULES, last).value, all))
  {
    hide AddLine;
    var front := lines[..|lines| - 1];
    assert forall i :: 0 <= i < |front| ==> front[i] == lines[i];
  }

  lemma {:induction false} LoadIsSum(r: Rules, lines: seq<string>)
    ensures Load(r, lines).Some? <==> Loadable(lines)
    ensures Load(r, lines).Some? ==> IsSum(r, lines, Load(r, lines).value)
  {
    hide AddLine, Includes;
    if lines != [] {
      var front, last := lines[..|lines| - 1], lines[|lines| - 1];
      LoadIsSum(r, front);
      assert Loadable(lines) ==> Loadable(front);
      if Load(r, front).Some? {
        LineAdds(Load(r, front).value, last);
        assert forall i :: 0 <= i < |front| ==> front[i] == lines[i];
        if Load(r, lines).Some? {
          IncludesFront(r, lines, Load(r, lines).value);
          IncludesGrows(r, front, Load(r, front).value, Load(r, lines).value);
          forall other | Includes(r, lines, other) ensures Within(Load(r, lines).value, other) {
            IncludesFront(r, lines, other);
          }
        }
      }
    } else {
      assert Includes(r, [], r) && forall other :: Includes(r, [], other) ==> Within(r, other)
        by { IncludesNothing(r); }
    }
  }

  lemma IncludesNothing(r: Rules)
    ensures Includes(r, [], r) && forall other :: Includes(r, [], other) ==> Within(r, other)
  {
  }

  lemma IncludesGrows(r: Rules, lines: seq<string>, a: Rules, b: Rules)
    requires Includes(r, lines, a) && Within(a, b)
    ensures Includes(r, lines, b)
  {
    hide AddLine;
  }

  lemma WithinBoth(a: Rules, b: Rules)
    requires Within(a, b) && Within(b, a)
    ensures a == b
  {
    assert a.values == b.values && a.entries == b.entries && a.relevant == b.relevant &&
      a.ignoredModels == b.ignoredModels;
  }

  /** Loading is confluent: the same lines in any order, however often repeated, load or fail alike and give the same
      rules, hence the same answer to every lookup. */
  lemma LoadConfluent(r: Rules, a: seq<string>, b: seq<string>)
    requires forall line :: line in a <==> line in b
    ensures Load(r, a).Some? <==> Load(r, b).Some?
    ensures Load(r, a) == Load(r, b)
  {
    hide AddLine, Load;
    LoadIsSum(r, a);
    LoadIsSum(r, b);
    LoadableAlike(a, b);
    LoadableAlike(b, a);
    if Load(r, a).Some? {
      IncludesAlike(r, a, b, Load(r, a).value);
      IncludesAlike(r, b, a, Load(r, b).value);
      WithinBoth(Load(r, a).value, Load(r, b).value);
    }
  }

  lemma LoadableAlike(a: seq<string>, b: seq<string>)
    requires forall line :: line in b ==> line in a
    ensures Loadable(a) ==> Loadable(b)
  {
    hide AddLine;
    forall i | 0 <= i < |b| ensures exists j :: 0 <= j < |a| && a[j] == b[i] {
      assert b[i] in b;
    }
  }

  lemma IncludesAlike(r: Rules, a: seq<string>, b: seq<string>, all: Rules)
    requires forall line :: line in b ==> line in a
    ensures Includes(r, a, all) ==> Includes(r, b, all)
  {
    hide AddLine;
    forall i | 0 <= i < |b| ensures exists j :: 0 <= j < |a| && a[j] == b[i] {
      assert b[i] in b;
    }
  }

  /** Adding a line never takes anything back: what is un-ignored stays so, what is not ignored stays so, and relevant
      paramsets and ignored models stay what they are. */
  lemma AddingIsMonotone(t: Tables, r: Rules, line: string, model: string, c: Channel, paramset: ParamsetKey,
                         parameter: string, customOnly: bool)
    requires AddLine(r, line).Some?
    ensures var after := AddLine(r, line).value;
      && (UnIgnored(t, r, model, c, paramset, parameter, customOnly) ==>
            UnIgnored(t, after, model, c, paramset, parameter, customOnly))
      && (!Ignored(t, r, model, c, paramset, parameter) ==> !Ignored(t, after, model, c, paramset, parameter))
      && (Relevant(r, model, paramset, c) ==> Relevant(after, model, paramset, c))
      && (ModelIgnored(r, model) ==> ModelIgnored(after, model))
  {
    hide AddLine, Lower, EventSwitchedOff, MatchesAny, EndsWithAny, StartsWithAny, MasterParameters;
    LineAdds(r, line);
    var after := AddLine(r, line).value;
    assert Within(r, after);
  }

  /** The user's lines act in one way only: a parameter is ignored exactly if the tables alone ignore it and no line
      un-ignores it. */
  lemma IgnoredFactors(t: Tables, r: Rules, model: string, c: Channel, paramset: ParamsetKey, parameter: string)
    ensures Ignored(t, r, model, c, paramset, parameter) <==>
      && Ignored(t, NO_RULES, model, c, paramset, parameter)
      && !UnIgnored(t, r, model, c, paramset, parameter, true)
  {
    hide Lower, EventSwitchedOff, MatchesAny, EndsWithAny, StartsWithAny, MasterParameters;
    if paramset == Master {
      assert SearchMatrix(Lower(model), c, Master)[0] == (Lower(model), c);
    }
  }

  // ----- what a candidate line does

  /** A line that is not skipped as a comment, and not taken for an ignored model. */
  predicate Usable(line: string) { '#' !in line && !(IGNORE_MODEL <= Lower(line)) }

  /** The one VALUES candidate that says nothing even so: an empty name with the wildcards for all. */
  predicate Empty(parameter: string, model: string, printed: Channel) {
    parameter == "" && Lower(model) == WILDCARD && printed == Word(WILDCARD)
  }

  lemma CandidateNotBlank(parameter: string, paramset: ParamsetKey, model: string, c: Channel)
    ensures !IsBlank(Candidate(parameter, paramset, model, c))
  {
    var line := Candidate(parameter, paramset, model, c);
    assert line[|parameter|] == ':' && line[|parameter|] in line;
  }

  /** A VALUES candidate un-ignores the parameter: on its channel, or on every channel with the wildcard. */
  lemma ValuesCandidateWorks(t: Tables, r: Rules, parameter: string, model: string, printed: Channel, c: Channel)
    requires Plain(parameter) && Plain(model) && Printed(printed)
    requires Usable(Candidate(parameter, Values, model, printed)) && !Empty(parameter, model, printed)
    requires printed == c || printed == Word(WILDCARD)
    ensures var after := Load(r, [Candidate(parameter, Values, model, printed)]);
      && after.Some?
      && UnIgnored(t, after.value, model, c, Values, parameter, true)
      && !Ignored(t, after.value, model, c, Values, parameter)
  {
    hide Candidate, Lower, IsBlank;
    var line := Candidate(parameter, Values, model, printed);
    CandidateRoundTrip(parameter, Values, model, printed);
    CandidateNotBlank(parameter, Values, model, printed);
    LoadOne(r, line);
    var after := AddLine(r, line).value;
    var matrix := SearchMatrix(Lower(model), c, Values);
    assert matrix[0] == (Lower(model), c) && matrix[1] == (Lower(model), Word(WILDCARD));
    if Lower(model) == WILDCARD && printed == Word(WILDCARD) {
      assert parameter in after.values;
    } else {
      assert Rule(Lower(model), printed, Values, parameter) in after.entries;
    }
  }

  /** A MASTER candidate with a channel or none un-ignores the parameter there, and makes the paramset relevant. */
  lemma MasterCandidateWorks(t: Tables, r: Rules, parameter: string, model: string, c: Channel)
    requires Plain(parameter) && Plain(model) && !c.Word? && Lower(model) != WILDCARD
    requires Usable(Candidate(parameter, Master, model, c))
    ensures var after := Load(r, [Candidate(parameter, Master, model, c)]);
      && after.Some?
      && UnIgnored(t, after.value, model, c, Master, parameter, true)
      && !Ignored(t, after.value, model, c, Master, parameter)
      && (model != "" ==> Relevant(after.value, model, Master, c))
  {
    hide Candidate, Lower, IsBlank;
    var line := Candidate(parameter, Master, model, c);
    CandidateRoundTrip(parameter, Master, model, c);
    CandidateNotBlank(parameter, Master, model, c);
    LoadOne(r, line);
    LowerTwice(model);
    var after := AddLine(r, line).value;
    assert SearchMatrix(Lower(model), c, Master)[0] == (Lower(model), c);
    assert (Lower(model), c) in after.relevant;
  }

  /** A line that is not usable leaves every answer about parameters as it was. */
  lemma UnusableIdle(t: Tables, r: Rules, line: string, model: string, c: Channel, paramset: ParamsetKey,
                     parameter: string)
    requires !Usable(line)
    ensures var after := Load(r, [line]);
      && after.Some?
      && after.value.values == r.values && after.value.entries == r.entries && after.value.relevant == r.relevant
      && (Ignored(t, after.value, model, c, paramset, parameter) <==> Ignored(t, r, model, c, paramset, parameter))
  {
    hide Lower, IsBlank, RemoveAll, ReadLine, EventSwitchedOff, MatchesAny, EndsWithAny, StartsWithAny,
      MasterParameters;
    if '#' in line {
      LoadSkips(r, line);
    } else {
      LoadOne(r, line);
    }
  }

  lemma LoadSkips(r: Rules, line: string)
    requires '#' in line
    ensures Load(r, [line]) == Some(r)
  {
    hide AddLine;
    assert [line][..0] == [];
    assert Load(r, []) == Some(r);
  }

  /** Exactly when a VALUES candidate has its effect on a parameter ignored so far: when it is no comment and not taken
      for an ignored model. */
  lemma ValuesCandidateIff(t: Tables, r: Rules, parameter: string, model: string, printed: Channel, c: Channel)
    requires Plain(parameter) && Plain(model) && Printed(printed)
    requires printed == c || printed == Word(WILDCARD)
    requires Ignored(t, r, model, c, Values, parameter)
    ensures var line := Candidate(parameter, Values, model, printed);
      && Load(r, [line]).Some?
      && (!Ignored(t, Load(r, [line]).value, model, c, Values, parameter) <==>
            Usable(line) && !Empty(parameter, model, printed))
  {
    hide Candidate, Lower, IsBlank, Usable, Ignored, ReadLine, Load;
    var line := Candidate(parameter, Values, model, printed);
    if Usable(line) && !Empty(parameter, model, printed) {
      ValuesCandidateWorks(t, r, parameter, model, printed, c);
    } else if Usable(line) {
      CandidateRoundTrip(parameter, Values, model, printed);
      assert Load(r, [line]) == Some(r) by { EmptyIdle(r, line); }
    } else {
      UnusableIdle(t, r, line, model, c, Values, parameter);
    }
  }

  /** Every usable VALUES line `get_parameters` gives has its effect: on the channel it was given for, with the channel
      wildcard on all channels of its model, and in the short format on all channels of all models. */
  lemma GivenLineWorks(t: Tables, r: Rules, central: Central, q: Query, x: Spot, model: string, c: Channel)
    requires central.Splits() && Listed(central, q, x) && q.paramset == Values
    requires Plain(x.2) && !IsBlank(x.2) && Usable(LineFor(central, q, x.1, x.2))
    requires q.full ==>
      Plain(ModelOf(central, x.1)) && model == ModelOf(central, x.1) && (q.wildcard || c == ChannelOf(x.1))
    ensures var after := Load(r, [LineFor(central, q, x.1, x.2)]);
      && after.Some?
      && UnIgnored(t, after.value, model, c, Values, x.2, true)
      && !Ignored(t, after.value, model, c, Values, x.2)
  {
    hide Splittable, ModelOf, ChannelOf, Lower, Candidate, Load, Ignored, UnIgnored;
    if q.full {
      var printed := if q.wildcard then Word(WILDCARD) else ChannelOf(x.1);
      assert Printed(printed) by { ChannelIsPrinted(x.1); }
      ValuesCandidateWorks(t, r, x.2, model, printed, c);
    } else {
      BareWorks(t, r, x.2, model, c);
    }
  }

  /** A MASTER line `get_parameters` gives lifts the ignoring of its parameter on its channel exactly if it is usable,
      in the full format, without the channel wildcard, and its model is not the wildcard. */
  lemma GivenMasterLineIff(t: Tables, r: Rules, central: Central, q: Query, x: Spot)
    requires central.Splits() && Listed(central, q, x) && q.paramset == Master
    requires Plain(x.2) && Plain(ModelOf(central, x.1))
    requires Ignored(t, r, ModelOf(central, x.1), ChannelOf(x.1), Master, x.2)
    ensures var line, model, c := LineFor(central, q, x.1, x.2), ModelOf(central, x.1), ChannelOf(x.1);
      && Load(r, [line]).Some?
      && (!Ignored(t, Load(r, [line]).value, model, c, Master, x.2) <==>
            Usable(line) && q.full && !q.wildcard && Lower(model) != WILDCARD)
  {
    hide Splittable, ModelOf, ChannelOf, Lower, Candidate, Load, Ignored, Usable;
    var line, model, c := LineFor(central, q, x.1, x.2), ModelOf(central, x.1), ChannelOf(x.1);
    assert Printed(c) && !c.Word? by { ChannelIsPrinted(x.1); }
    if !Usable(line) {
      UnusableIdle(t, r, line, model, c, Master, x.2);
    } else if !q.full {
      BareMasterIdle(t, r, x.2, model, c);
    } else if q.wildcard {
      assert Load(r, [line]) == AddLine(r, line) by { UsableLoads(r, line); }
      MasterWildcardIdle(r, x.2, model);
    } else {
      MasterCandidateIff(t, r, x.2, model, c);
    }
  }

  /** A bare name says nothing about MASTER, even when it was given for a MASTER parameter. */
  lemma BareMasterIdle(t: Tables, r: Rules, parameter: string, model: string, c: Channel)
    requires Plain(parameter) && Usable(parameter)
    ensures var after := Load(r, [parameter]);
      && after.Some?
      && (Ignored(t, after.value, model, c, Master, parameter) <==> Ignored(t, r, model, c, Master, parameter))
  {
    hide ReadLine, Lower, IsBlank, MasterParameters;
    LoadOne(r, parameter);
    BareReads(parameter);
  }

  lemma ChannelIsPrinted(c: string)
    requires Splittable(c)
    ensures Printed(ChannelOf(c)) && !ChannelOf(c).Word?
  {
  }

  lemma BareWorks(t: Tables, r: Rules, parameter: string, model: string, c: Channel)
    requires Plain(parameter) && !IsBlank(parameter) && Usable(parameter)
    ensures var after := Load(r, [parameter]);
      && after.Some?
      && UnIgnored(t, after.value, model, c, Values, parameter, true)
      && !Ignored(t, after.value, model, c, Values, parameter)
  {
    hide ReadLine, Lower;
    LoadOne(r, parameter);
    BareReads(parameter);
  }

  lemma EmptyIdle(r: Rules, line: string)
    requires Usable(line) && ReadLine(line) == Bare("")
    ensures Load(r, [line]) == Some(r)
  {
    hide ReadLine, IsBlank;
    LoadOne(r, line);
  }

  /** Exactly when a MASTER candidate has its effect on a parameter ignored so far: it must also have a model of its
      own, and no channel wildcard. */
  lemma MasterCandidateIff(t: Tables, r: Rules, parameter: string, model: string, c: Channel)
    requires Plain(parameter) && Plain(model) && Printed(c)
    requires Ignored(t, r, model, c, Master, parameter)
    ensures var line := Candidate(parameter, Master, model, c);
      && Load(r, [line]).Some?
      && (!Ignored(t, Load(r, [line]).value, model, c, Master, parameter) <==>
            Usable(line) && !c.Word? && Lower(model) != WILDCARD)
  {
    hide Candidate, Lower, IsBlank, Usable, ReadLine, Load, EventSwitchedOff, MatchesAny, EndsWithAny, StartsWithAny,
      MasterParameters;
    var line := Candidate(parameter, Master, model, c);
    if !Usable(line) {
      UnusableIdle(t, r, line, model, c, Master, parameter);
    } else if !c.Word? && Lower(model) != WILDCARD {
      MasterCandidateWorks(t, r, parameter, model, c);
    } else {
      CandidateRoundTrip(parameter, Master, model, c);
      CandidateNotBlank(parameter, Master, model, c);
      assert Load(r, [line]) == AddLine(r, line) && !(IGNORE_MODEL <= Lower(line)) by { UsableLoads(r, line); }
    }
  }

  lemma UsableLoads(r: Rules, line: string)
    requires Usable(line)
    ensures Load(r, [line]) == AddLine(r, line) && !(IGNORE_MODEL <= Lower(line))
  {
    hide AddLine;
    LoadOne(r, line);
  }

  lemma LowerTwice(s: string)
    ensures Lower(Lower(s)) == Lower(s) && |Lower(s)| == |s|
  {
  }

  lemma LoadOne(r: Rules, line: string)
    requires '#' !in line
    ensures Load(r, [line]) == AddLine(r, line)
  {
    hide AddLine;
    assert [line][..0] == [];
    assert Load(r, []) == Some(r);
  }

  /** A MASTER candidate printed with the wildcard has no effect at all. */
  lemma MasterWildcardIdle(r: Rules, parameter: string, model: string)
    requires Plain(parameter) && Plain(model)
    requires Usable(Candidate(parameter, Master, model, Word(WILDCARD)))
    ensures AddLine(r, Candidate(parameter, Master, model, Word(WILDCARD))) == Some(r)
  {
    hide Candidate, Lower, IsBlank;
    CandidateRoundTrip(parameter, Master, model, Word(WILDCARD));
    CandidateNotBlank(parameter, Master, model, Word(WILDCARD));
  }

  /** `pattern in s` */
  predicate Occurs(pattern: string, s: string) { pattern <= s || (s != "" && Occurs(pattern, s[1..])) }

  lemma {:induction false} NothingToRemove(s: string, pattern: string)
    requires pattern != "" && !Occurs(pattern, s)
    ensures RemoveAll(s, pattern) == s
  {
    if s != "" {
      NothingToRemove(s[1..], pattern);
    }
  }

  /** A line "ignore_MODEL" makes exactly the models that start like it ignored, besides those that were, and leaves
      every rule about parameters as it is. */
  lemma IgnoreLineIgnores(r: Rules, model: string, other: string)
    requires '#' !in model && !Occurs(IGNORE_MODEL, Lower(model))
    ensures var after := Load(r, [IGNORE_MODEL + model]);
      && after.Some?
      && (ModelIgnored(after.value, other) <==> ModelIgnored(r, other) || Lower(model) <= Lower(other))
      && after.value.values == r.values && after.value.entries == r.entries && after.value.relevant == r.relevant
  {
    hide IsBlank, RemoveAll, ReadLine, Occurs, Lower;
    var line := IGNORE_MODEL + model;
    LoadOne(r, line);
    assert Lower(line) == IGNORE_MODEL + Lower(model) && !IsBlank(line) by { IgnoreLine(model); }
    assert RemoveAll(IGNORE_MODEL + Lower(model), IGNORE_MODEL) == Lower(model) by {
      NothingToRemove(Lower(model), IGNORE_MODEL);
      RemoveFirst(Lower(model), IGNORE_MODEL);
    }
    LowerTwice(model);
    LowerTwice(other);
    assert AddLine(r, line) == Some(r.(ignoredModels := r.ignoredModels + {Lower(model)}));
  }

  lemma IgnoreLine(model: string)
    ensures Lower(IGNORE_MODEL + model) == IGNORE_MODEL + Lower(model) && !IsBlank(IGNORE_MODEL + model)
  {
    var line := IGNORE_MODEL + model;
    assert line[0] == 'i' && line[0] in line && !IsSpace(line[0]);
    assert Lower(IGNORE_MODEL) == IGNORE_MODEL;
  }

  lemma RemoveFirst(s: string, pattern: string)
    requires pattern != ""
    ensures RemoveAll(pattern + s, pattern) == RemoveAll(s, pattern)
  {
    assert (pattern + s)[|pattern|..] == s;
  }

  /** "P:VALUES@all:all" says the same as "P". */
  lemma WildcardIsBare(r: Rules, parameter: string)
    requires Plain(parameter) && !IsBlank(parameter) && !(IGNORE_MODEL <= Lower(parameter))
    ensures AddLine(r, Candidate(parameter, Values, WILDCARD, Word(WILDCARD))) == AddLine(r, parameter)
  {
    hide Candidate, ReadLine, Lower;
    var line := Candidate(parameter, Values, WILDCARD, Word(WILDCARD));
    CandidateRoundTrip(parameter, Values, WILDCARD, Word(WILDCARD));
    assert ReadLine(parameter) == Bare(parameter) by { BareReads(parameter); }
    assert Lower(WILDCARD) == WILDCARD by { WildcardIsLower(); }
    CandidateStarts(parameter, line);
  }

  lemma WildcardIsLower()
    ensures Lower(WILDCARD) == WILDCARD && Plain(WILDCARD)
  {
  }

  lemma BareReads(parameter: string)
    requires Plain(parameter)
    ensures ReadLine(parameter) == Bare(parameter)
  {
  }

  lemma CandidateStarts(parameter: string, line: string)
    requires line == Candidate(parameter, Values, WILDCARD, Word(WILDCARD)) && !IsBlank(parameter)
    ensures !IsBlank(line)
    ensures IGNORE_MODEL <= Lower(line) ==> IGNORE_MODEL <= Lower(parameter)
  {
    assert line[..|parameter|] == parameter && line[|parameter|] == ':';
    if IGNORE_MODEL <= Lower(line) {
      assert forall k :: 0 <= k < |IGNORE_MODEL| ==> IGNORE_MODEL[k] != ':' && Lower(line)[k] == IGNORE_MODEL[k];
      assert Lower(line)[|parameter|] == ':';
      assert |parameter| >= |IGNORE_MODEL|;
      assert Lower(parameter) == Lower(line)[..|parameter|];
    }
    var k :| 0 <= k < |parameter| && !IsSpace(parameter[k]);
    assert line[k] == parameter[k];
  }
}
