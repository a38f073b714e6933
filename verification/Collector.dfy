/** Collecting data point writes and sending them in fewer backend calls. */
module Collector {
  import opened Wrappers
  import opened Dicts
  import opened ParamsetKeys

  /** One write handed to the collector. */
  datatype Write<V> = Write(paramset: ParamsetKey, order: int, channel: string, parameter: string, value: V)
  {
    function At(): Place { Place(paramset, channel, parameter) }
  }

  /** Where a value lives in the backend. */
  datatype Place = Place(paramset: ParamsetKey, channel: string, parameter: string)

  type Store<V> = map<Place, V>

  type Channels<V> = Dict<string, Dict<string, V>>

  type Orders<V> = Dict<int, Channels<V>>

  type Paramsets<V> = Dict<ParamsetKey, Orders<V>>

  // ----- writing one by one

  function Execute<V>(writes: seq<Write<V>>, store: Store<V>): Store<V> {
    if writes == [] then store
    else Execute(writes[..|writes| - 1], store)[writes[|writes| - 1].At() := writes[|writes| - 1].value]
  }

  /** Insertion behind every write of the same or a lower order. */
  function Insert<V>(sorted: seq<Write<V>>, w: Write<V>): seq<Write<V>> {
    if sorted == [] || sorted[|sorted| - 1].order <= w.order then sorted + [w]
    else Insert(sorted[..|sorted| - 1], w) + [sorted[|sorted| - 1]]
  }

  /** The writes in ascending order; writes of the same order stay as they were added. */
  function StableSort<V>(writes: seq<Write<V>>): seq<Write<V>> {
    if writes == [] then [] else Insert(StableSort(writes[..|writes| - 1]), writes[|writes| - 1])
  }

  // ----- backend calls

  datatype Call<V> =
    | SetValue(channel: string, parameter: string, value: V)
    | PutParamset(channel: string, paramset: ParamsetKey, values: Dict<string, V>)

  function Assign<V>(paramset: ParamsetKey, channel: string, values: Dict<string, V>, store: Store<V>): Store<V> {
    if values == [] then store
    else
      var n := |values| - 1;
      Assign(paramset, channel, values[..n], store)[Place(paramset, channel, values[n].0) := values[n].1]
  }

  /** What a call does to the backend. */
  function Perform<V>(call: Call<V>, store: Store<V>): Store<V> {
    match call
    case SetValue(channel, parameter, value) => store[Place(Values, channel, parameter) := value]
    case PutParamset(channel, paramset, values) => Assign(paramset, channel, values, store)
  }

  function Replay<V>(calls: seq<Call<V>>, store: Store<V>): Store<V> {
    if calls == [] then store else Perform(calls[|calls| - 1], Replay(calls[..|calls| - 1], store))
  }

  /** `Client.set_value`: a value of another paramset than VALUES is sent as a paramset. */
  function ClientSetValue<V>(channel: string, paramset: ParamsetKey, parameter: string, value: V): Call<V> {
    if paramset.Values? then SetValue(channel, parameter, value)
    else PutParamset(channel, paramset, [(parameter, value)])
  }

  // ----- what the collector holds

  function OrdersOf<V>(paramsets: Paramsets<V>, p: ParamsetKey): Orders<V> { LookupOr(paramsets, p, []) }

  function ChannelsOf<V>(paramsets: Paramsets<V>, p: ParamsetKey, order: int): Channels<V> {
    LookupOr(OrdersOf(paramsets, p), order, [])
  }

  function ValuesOf<V>(paramsets: Paramsets<V>, p: ParamsetKey, order: int, channel: string): Dict<string, V> {
    LookupOr(ChannelsOf(paramsets, p, order), channel, [])
  }

  /** The last value written for a place in an order. */
  function LastWrite<V>(writes: seq<Write<V>>, order: int, x: Place): Option<V> {
    if writes == [] then None else
    var w := writes[|writes| - 1];
    if w.order == order && w.At() == x then Some(w.value) else LastWrite(writes[..|writes| - 1], order, x)
  }

  ghost predicate WellFormed<V>(paramsets: Paramsets<V>) {
    && Distinct(paramsets)
    && (forall p :: Distinct(OrdersOf(paramsets, p)))
    && (forall p, o :: Distinct(ChannelsOf(paramsets, p, o)))
    && (forall p, o, c :: Distinct(ValuesOf(paramsets, p, o, c)))
  }

  /** The nested dictionaries hold, for each place and order, the last value written, and nothing else. */
  ghost predicate Holds<V(!new)>(paramsets: Paramsets<V>, writes: seq<Write<V>>) {
    && WellFormed(paramsets)
    && (forall p, o, c, q {:trigger Lookup(ValuesOf(paramsets, p, o, c), q)} ::
          Lookup(ValuesOf(paramsets, p, o, c), q) == LastWrite(writes, o, Place(p, c, q)))
    && (forall p, o, c :: Lookup(ChannelsOf(paramsets, p, o), c).Some? ==> ValuesOf(paramsets, p, o, c) != [])
  }

  // ----- sending

  /** One channel's values of one order, sent in one call. */
  datatype Group<V> = Group(paramset: ParamsetKey, order: int, channel: string, values: Dict<string, V>)
  {
    function ToCall(): Call<V> {
      if |values| == 1 then ClientSetValue(channel, paramset, values[0].0, values[0].1)
      else PutParamset(channel, paramset, values)
    }
  }

  function InsertOrder<V>(sorted: Orders<V>, entry: (int, Channels<V>)): Orders<V> {
    if sorted == [] || entry.0 < sorted[0].0 then [entry] + sorted
    else [sorted[0]] + InsertOrder(sorted[1..], entry)
  }

  /** `sorted(paramsets.items())`: the orders are distinct, so only they are compared. */
  function SortOrders<V>(orders: Orders<V>): Orders<V> {
    if orders == [] then [] else InsertOrder(SortOrders(orders[1..]), orders[0])
  }

  function PlanChannels<V>(p: ParamsetKey, order: int, channels: Channels<V>): seq<Group<V>> {
    seq(|channels|, i requires 0 <= i < |channels| => Group(p, order, channels[i].0, channels[i].1))
  }

  function PlanOrders<V>(p: ParamsetKey, orders: Orders<V>): seq<Group<V>> {
    if orders == [] then [] else PlanChannels(p, orders[0].0, orders[0].1) + PlanOrders(p, orders[1..])
  }

  /** The groups in the order they are sent. */
  function Plan<V>(paramsets: Paramsets<V>): seq<Group<V>> {
    if paramsets == [] then []
    else PlanOrders(paramsets[0].0, SortOrders(paramsets[0].1)) + Plan(paramsets[1..])
  }

  function CallsOf<V>(plan: seq<Group<V>>): seq<Call<V>> {
    seq(|plan|, i requires 0 <= i < |plan| => plan[i].ToCall())
  }

  function AddedChannels<V>(paramsets: Paramsets<V>, w: Write<V>): Channels<V> {
    Put(ChannelsOf(paramsets, w.paramset, w.order), w.channel,
        Put(ValuesOf(paramsets, w.paramset, w.order, w.channel), w.parameter, w.value))
  }

  function AddedOrders<V>(paramsets: Paramsets<V>, w: Write<V>): Orders<V> {
    Put(OrdersOf(paramsets, w.paramset), w.order, AddedChannels(paramsets, w))
  }

  /** The dictionaries after one more write, missing levels being created. */
  function Added<V>(paramsets: Paramsets<V>, w: Write<V>): Paramsets<V> {
    Put(paramsets, w.paramset, AddedOrders(paramsets, w))
  }

  class CallParameterCollector<V(!new)> {
    var paramsets: Paramsets<V>
    ghost var writes: seq<Write<V>>

    ghost predicate Valid()
      reads this
    {
      Holds(paramsets, writes)
    }

    constructor ()
      ensures Valid() && writes == []
    {
      paramsets := [];
      writes := [];
    }

    method AddDataPoint(p: ParamsetKey, channel: string, parameter: string, value: V, order: int)
      requires Valid()
      modifies this
      ensures Valid()
      ensures writes == old(writes) + [Write(p, order, channel, parameter, value)]
    {
      var w := Write(p, order, channel, parameter, value);
      AddHolds(paramsets, writes, w);
      var values := Put(ValuesOf(paramsets, p, order, channel), parameter, value);
      var channels := Put(ChannelsOf(paramsets, p, order), channel, values);
      var orders := Put(OrdersOf(paramsets, p), order, channels);
      paramsets := Put(paramsets, p, orders);
      writes := writes + [w];
    }

    /** `send_data`; the calls are returned in the order they are made. */
    method SendData() returns (calls: seq<Call<V>>)
      requires Valid()
      ensures calls == CallsOf(Plan(paramsets))
    {
      hide SortOrders, PlanOrders;
      calls := [];
      for i := 0 to |paramsets|
        invariant calls + CallsOf(Plan(paramsets[i..])) == CallsOf(Plan(paramsets))
      {
        assert paramsets[i..][1..] == paramsets[i + 1..];
        CallsOfConcat(PlanOrders(paramsets[i].0, SortOrders(paramsets[i].1)), Plan(paramsets[i + 1..]));
        var sent := SendOrders(paramsets[i].0, SortOrders(paramsets[i].1));
        calls := calls + sent;
      }
    }
  }

  method SendOrders<V>(p: ParamsetKey, orders: Orders<V>) returns (calls: seq<Call<V>>)
    ensures calls == CallsOf(PlanOrders(p, orders))
  {
    calls := [];
    for j := 0 to |orders|
      invariant calls + CallsOf(PlanOrders(p, orders[j..])) == CallsOf(PlanOrders(p, orders))
    {
      assert orders[j..][1..] == orders[j + 1..];
      CallsOfConcat(PlanChannels(p, orders[j].0, orders[j].1), PlanOrders(p, orders[j + 1..]));
      var sent := SendChannels(p, orders[j].0, orders[j].1);
      calls := calls + sent;
    }
  }

  method SendChannels<V>(p: ParamsetKey, order: int, channels: Channels<V>) returns (calls: seq<Call<V>>)
    ensures calls == CallsOf(PlanChannels(p, order, channels))
  {
    calls := [];
    for k := 0 to |channels|
      invariant calls == CallsOf(PlanChannels(p, order, channels))[..k]
    {
      var channel, values := channels[k].0, channels[k].1;
      assert PlanChannels(p, order, channels)[k] == Group(p, order, channel, values);
      assert CallsOf(PlanChannels(p, order, channels))[k] == Group(p, order, channel, values).ToCall();
      if |values| == 1 {
        calls := calls + [ClientSetValue(channel, p, values[0].0, values[0].1)];
      } else {
        calls := calls + [PutParamset(channel, p, values)];
      }
    }
  }

  lemma CallsOfConcat<V>(a: seq<Group<V>>, b: seq<Group<V>>)
    ensures CallsOf(a + b) == CallsOf(a) + CallsOf(b)
  {
  }

  // ----- adding keeps what is held

  lemma AddedValues<V>(paramsets: Paramsets<V>, w: Write<V>, p: ParamsetKey, o: int, c: string)
    ensures var added := Added(paramsets, w);
      && OrdersOf(added, p) == (if p == w.paramset then AddedOrders(paramsets, w) else OrdersOf(paramsets, p))
      && ChannelsOf(added, p, o) ==
          (if p == w.paramset && o == w.order then AddedChannels(paramsets, w) else ChannelsOf(paramsets, p, o))
      && ValuesOf(added, p, o, c) ==
          if p == w.paramset && o == w.order && c == w.channel
          then Put(ValuesOf(paramsets, p, o, c), w.parameter, w.value) else ValuesOf(paramsets, p, o, c)
  {
    hide Put;
  }

  lemma AddHolds<V(!new)>(paramsets: Paramsets<V>, writes: seq<Write<V>>, w: Write<V>)
    requires Holds(paramsets, writes)
    ensures Holds(Added(paramsets, w), writes + [w])
  {
    hide Put, Added, AddedOrders, AddedChannels, OrdersOf, ChannelsOf, ValuesOf, Lookup, Distinct;
    var added := Added(paramsets, w);
    AddDistinct(paramsets, w);
    assert (writes + [w])[..|writes|] == writes;
    forall p ensures Distinct(OrdersOf(added, p)) {
      AddedValues(paramsets, w, p, 0, "");
    }
    forall p, o ensures Distinct(ChannelsOf(added, p, o)) {
      AddedValues(paramsets, w, p, o, "");
    }
    forall p, o, c
      ensures Distinct(ValuesOf(added, p, o, c))
      ensures Lookup(ChannelsOf(added, p, o), c).Some? ==> ValuesOf(added, p, o, c) != []
    {
      AddedValues(paramsets, w, p, o, c);
      AddNonEmpty(paramsets, w, c);
    }
    forall p, o, c, q ensures Lookup(ValuesOf(added, p, o, c), q) == LastWrite(writes + [w], o, Place(p, c, q)) {
      AddedValues(paramsets, w, p, o, c);
    }
  }

  lemma AddDistinct<V>(paramsets: Paramsets<V>, w: Write<V>)
    requires WellFormed(paramsets)
    ensures Distinct(Added(paramsets, w)) && Distinct(AddedOrders(paramsets, w)) &&
      Distinct(AddedChannels(paramsets, w))
    ensures Distinct(Put(ValuesOf(paramsets, w.paramset, w.order, w.channel), w.parameter, w.value))
  {
    PutDistinct(ValuesOf(paramsets, w.paramset, w.order, w.channel), w.parameter, w.value);
    PutDistinct(ChannelsOf(paramsets, w.paramset, w.order), w.channel,
                Put(ValuesOf(paramsets, w.paramset, w.order, w.channel), w.parameter, w.value));
    PutDistinct(OrdersOf(paramsets, w.paramset), w.order, AddedChannels(paramsets, w));
    PutDistinct(paramsets, w.paramset, AddedOrders(paramsets, w));
  }

  lemma AddNonEmpty<V>(paramsets: Paramsets<V>, w: Write<V>, c: string)
    ensures Put(ValuesOf(paramsets, w.paramset, w.order, w.channel), w.parameter, w.value) != []
    ensures c != w.channel ==>
      (Lookup(AddedChannels(paramsets, w), c) == Lookup(ChannelsOf(paramsets, w.paramset, w.order), c))
  {
  }
}
