/** The language of un-ignore lines: "PARAMETER:PARAMSET@MODEL:CHANNEL", a bare parameter, or "ignore_MODEL". */
module UnIgnore {
  import opened Wrappers
  import opened Numerals
  import opened Text
  import opened ParamsetKeys
  import opened Addresses

  const WILDCARD := "all"
  const IGNORE_MODEL := "ignore_"

  /** The channel part of a line: nothing, a number, or some other word such as the wildcard. */
  datatype Channel = NoChannel | Number(n: nat) | Word(s: string)

  /** What a line says. `Crash` is an unknown paramset key, which raises. */
  datatype Line =
    | Entry(model: string, channel: Channel, parameter: string, paramset: ParamsetKey)
    | Bare(parameter: string)
    | Unsupported
    | Crash

  function ReadChannel(s: string): Channel {
    match Parse(s, 10)
    case Some(n) => Number(n)
    case None => if s == "" then NoChannel else Word(s)
  }

  /** `_get_un_ignore_line_details` */
  function ReadLine(line: string): Line {
    if '@' in line then
      var data := Split(line, '@');
      if |data| != 2 || ':' !in data[0] then Unsupported else
      var param := Split(data[0], ':');
      if |param| != 2 then Unsupported else
      match KeyNamed(param[1])
      case None => Crash
      case Some(paramset) =>
        if ':' !in data[1] then Unsupported else
        var target := Split(data[1], ':');
        if |target| != 2 then Unsupported else
        var model, channel := Lower(target[0]), ReadChannel(target[1]);
        if model == WILDCARD && channel == Word(WILDCARD) && paramset == Values then Bare(param[0])
        else Entry(model, channel, param[0], paramset)
    else if ':' in line then Unsupported
    else Bare(line)
  }

  // ----- printing candidates

  function PrintChannel(c: Channel): string {
    match c case NoChannel => "" case Number(n) => Print(n, 10) case Word(s) => s
  }

  /** A candidate line as `get_parameters` prints it in its full format. */
  function Candidate(parameter: string, paramset: ParamsetKey, model: string, c: Channel): string {
    parameter + ":" + KeyName(paramset) + "@" + model + ":" + PrintChannel(c)
  }

  /** Channels that candidates are printed with. */
  predicate Printed(c: Channel) { c.Word? ==> c.s == WILDCARD }

  predicate Plain(name: string) { '@' !in name && ':' !in name }

  lemma ChannelRoundTrip(c: Channel)
    requires Printed(c)
    ensures ReadChannel(PrintChannel(c)) == c && Plain(PrintChannel(c))
  {
    if c.Number? {
      ParsePrint(c.n, 10);
    } else if c.Word? {
      assert !IsDigit(WILDCARD[2], 10);
    }
  }

  lemma KeyNames(k: ParamsetKey)
    ensures KeyNamed(KeyName(k)) == Some(k) && Plain(KeyName(k))
  {
  }

  /** A printed candidate reads back as what it was printed for, the model in lower case; only the wildcard for all
      models and channels of VALUES collapses to the bare parameter. */
  lemma CandidateRoundTrip(parameter: string, paramset: ParamsetKey, model: string, c: Channel)
    requires Plain(parameter) && Plain(model) && Printed(c)
    ensures ReadLine(Candidate(parameter, paramset, model, c)) ==
      if Lower(model) == WILDCARD && c == Word(WILDCARD) && paramset == Values then Bare(parameter)
      else Entry(Lower(model), c, parameter, paramset)
  {
    hide Split, ReadChannel, PrintChannel, KeyName, KeyNamed, Lower;
    var left, right := parameter + [':'] + KeyName(paramset), model + [':'] + PrintChannel(c);
    var line := Candidate(parameter, paramset, model, c);
    KeyNames(paramset);
    ChannelRoundTrip(c);
    assert line == left + ['@'] + right;
    SplitTwo(left, '@', right);
    SplitTwo(parameter, ':', KeyName(paramset));
    SplitTwo(model, ':', PrintChannel(c));
  }

  // ----- collecting candidates

  /** Parameter data: the operations the parameter allows. */
  type Operations = set<string>

  type Channels = map<string, map<ParamsetKey, map<string, Operations>>>

  /** Interface, channel address and parameter. */
  type Spot = (string, string, string)

  /** What counts of a data point when candidates are collected. */
  datatype DataPoint = DataPoint(enabledDefault: bool, isUnIgnored: bool)

  /** What the central knows: paramset descriptions by interface, models by device, data points of the paramset by
      channel and parameter, and the parameters never offered. */
  datatype Central = Central(
    raw: map<string, Channels>,
    models: map<string, string>,
    dataPoints: map<(string, string), DataPoint>,
    notOffered: set<string>)
  {
    predicate Splits() { forall i <- raw :: forall c <- raw[i] :: Splittable(c) }
  }

  /** The arguments of `get_parameters`. */
  datatype Query = Query(paramset: ParamsetKey, operations: Operations, full: bool, candidatesOnly: bool,
                         wildcard: bool)

  function Spots(raw: map<string, Channels>, paramset: ParamsetKey): set<Spot> {
    set i, c, p | i in raw && c in raw[i] && paramset in raw[i][c] && p in raw[i][c][paramset] :: (i, c, p)
  }

  function ModelOf(central: Central, c: string): string
    requires Splittable(c)
  {
    if DevicePart(c) in central.models then central.models[DevicePart(c)] else "None"
  }

  function ChannelOf(c: string): Channel
    requires Splittable(c)
  {
    match ChannelNo(c) case None => NoChannel case Some(n) => Number(n)
  }

  /** The line for a parameter of a channel. */
  function LineFor(central: Central, q: Query, c: string, p: string): string
    requires Splittable(c)
  {
    if q.full then Candidate(p, q.paramset, ModelOf(central, c), if q.wildcard then Word(WILDCARD) else ChannelOf(c))
    else p
  }

  /** A parameter that is visible anyway, or never offered, is no candidate. */
  predicate NoCandidate(central: Central, c: string, p: string) {
    || ((c, p) in central.dataPoints && central.dataPoints[(c, p)].enabledDefault &&
         !central.dataPoints[(c, p)].isUnIgnored)
    || p in central.notOffered
  }

  predicate Listed(central: Central, q: Query, x: Spot) {
    && x in Spots(central.raw, q.paramset)
    && q.operations <= central.raw[x.0][x.1][q.paramset][x.2]
    && (q.candidatesOnly ==> !NoCandidate(central, x.1, x.2))
  }

  /** `get_parameters` */
  method GetParameters(central: Central, q: Query) returns (lines: set<string>)
    requires central.Splits()
    ensures forall line :: line in lines <==> exists x :: Listed(central, q, x) && line == LineFor(central, q, x.1, x.2)
  {
    hide Splittable, LineFor;
    lines := {};
    var todo := Spots(central.raw, q.paramset);
    ghost var done: set<Spot> := {};
    while todo != {}
      invariant todo !! done && todo + done == Spots(central.raw, q.paramset)
      invariant forall x :: x in done && Listed(central, q, x) ==> LineFor(central, q, x.1, x.2) in lines
      invariant forall line <- lines :: exists x :: Listed(central, q, x) && line == LineFor(central, q, x.1, x.2)
      decreases todo
    {
      var x :| x in todo;
      var allowed := central.raw[x.0][x.1][q.paramset][x.2];
      if q.operations <= allowed && !(q.candidatesOnly && NoCandidate(central, x.1, x.2)) {
        lines := lines + {LineFor(central, q, x.1, x.2)};
      }
      todo, done := todo - {x}, done + {x};
    }
  }

  /** Which parameters are listed: those of the paramset that allow all the operations asked for and, when only
      candidates are wanted, are offered and either have no data point, are not enabled by default, or are already
      un-ignored. */
  lemma ListedIff(central: Central, q: Query, i: string, c: string, p: string)
    ensures Listed(central, q, (i, c, p)) <==>
      && i in central.raw && c in central.raw[i] && q.paramset in central.raw[i][c]
      && p in central.raw[i][c][q.paramset]
      && (forall operation <- q.operations :: operation in central.raw[i][c][q.paramset][p])
      && (q.candidatesOnly ==>
            && p !in central.notOffered
            && ((c, p) in central.dataPoints ==>
                  central.dataPoints[(c, p)].isUnIgnored || !central.dataPoints[(c, p)].enabledDefault))
  {
  }

  /** What a full line is read as: the channel it was given for or the wildcard, and the model of its device. */
  lemma FullLineReads(central: Central, q: Query, device: string, no: Option<nat>, p: string)
    requires ':' !in device && q.full && Plain(p)
    requires device in central.models && Plain(central.models[device]) && Lower(central.models[device]) != "all"
    ensures Splittable(ChannelAddress(device, no))
    ensures ReadLine(LineFor(central, q, ChannelAddress(device, no), p)) ==
      Entry(Lower(central.models[device]),
            if q.wildcard then Word("all") else match no case None => NoChannel case Some(n) => Number(n),
            p, q.paramset)
  {
    hide Splittable, DevicePart, ChannelNo, Candidate, ReadLine, Lower;
    AddressRoundTrip(device, no);
    CandidateRoundTrip(p, q.paramset, central.models[device],
                       if q.wildcard then Word(WILDCARD) else ChannelOf(ChannelAddress(device, no)));
  }

  /** A device without a known model is printed as "None", and a short line is the parameter itself. */
  lemma OtherLines(central: Central, q: Query, c: string, p: string)
    requires Splittable(c)
    ensures !q.full ==> LineFor(central, q, c, p) == p
    ensures q.full && DevicePart(c) !in central.models ==>
      exists rest :: LineFor(central, q, c, p) == p + ":" + KeyName(q.paramset) + "@None:" + rest
  {
    hide DevicePart, ChannelNo, KeyName;
    if q.full && DevicePart(c) !in central.models {
      var rest := PrintChannel(if q.wildcard then Word(WILDCARD) else ChannelOf(c));
      assert LineFor(central, q, c, p) == p + ":" + KeyName(q.paramset) + "@None:" + rest;
    }
  }
}
