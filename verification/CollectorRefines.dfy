/** The collector refines writing one by one, and sends each group of writes in exactly one call. */
module CollectorRefines {
  import opened Wrappers
  import opened Dicts
  import opened ParamsetKeys
  import opened Collector

  // ----- the plan: what is sent, and in which order

  predicate SameKey<V>(g: Group<V>, h: Group<V>) {
    g.paramset == h.paramset && g.order == h.order && g.channel == h.channel
  }

  predicate Ascending<V>(orders: Orders<V>) {
    forall i, j :: 0 <= i < j < |orders| ==> orders[i].0 < orders[j].0
  }

  /** No group is sent twice, and within a paramset the orders never decrease. */
  predicate WellOrdered<V>(plan: seq<Group<V>>) {
    forall i, j :: 0 <= i < j < |plan| ==>
      !SameKey(plan[i], plan[j]) && (plan[i].paramset == plan[j].paramset ==> plan[i].order <= plan[j].order)
  }

  lemma {:induction false} InsertOrderSorts<V>(sorted: Orders<V>, entry: (int, Channels<V>), o: int)
    requires Ascending(sorted) && Lookup(sorted, entry.0).None?
    ensures Ascending(InsertOrder(sorted, entry))
    ensures InsertOrder(sorted, entry)[0] in [entry] + sorted[..if sorted == [] then 0 else 1]
    ensures Lookup(InsertOrder(sorted, entry), o) == if o == entry.0 then Some(entry.1) else Lookup(sorted, o)
  {
    if sorted != [] && entry.0 >= sorted[0].0 {
      InsertOrderSorts(sorted[1..], entry, o);
      var r := InsertOrder(sorted[1..], entry);
      assert sorted[0].0 < r[0].0;
      assert InsertOrder(sorted, entry)[1..] == r;
    } else {
      assert InsertOrder(sorted, entry)[1..] == sorted;
    }
  }

  /** Sorting a dictionary by key does not change what it holds. */
  lemma {:induction false} SortedLookup<V>(orders: Orders<V>, o: int)
    requires Distinct(orders)
    ensures Ascending(SortOrders(orders)) && Lookup(SortOrders(orders), o) == Lookup(orders, o)
  {
    if orders != [] {
      SortedLookup(orders[1..], o);
      SortedLookup(orders[1..], orders[0].0);
      NotInTail(orders);
      InsertOrderSorts(SortOrders(orders[1..]), orders[0], o);
    }
  }

  lemma NotInTail<K, V>(d: Dict<K, V>)
    requires d != [] && Distinct(d)
    ensures Lookup(d[1..], d[0].0).None?
  {
    if Lookup(d[1..], d[0].0).Some? {
      var i := LookupFound(d[1..], d[0].0);
    }
  }

  predicate ChannelsDistinct<V>(orders: Orders<V>) {
    forall i :: 0 <= i < |orders| ==> Distinct(orders[i].1)
  }

  /** The group with this key is sent exactly if it is held, and then with the values held. */
  ghost predicate SendsHeld<V>(plan: seq<Group<V>>, p: ParamsetKey, o: int, c: string, held: Option<Dict<string, V>>) {
    && (forall i :: 0 <= i < |plan| && plan[i].paramset == p && plan[i].order == o && plan[i].channel == c ==>
          held == Some(plan[i].values))
    && (held.Some? ==> exists i :: 0 <= i < |plan| && plan[i] == Group(p, o, c, held.value))
  }

  lemma SendsConcat<V>(a: seq<Group<V>>, b: seq<Group<V>>, p: ParamsetKey, o: int, c: string,
                       held: Option<Dict<string, V>>)
    requires (SendsHeld(a, p, o, c, held) && SendsHeld(b, p, o, c, None))
          || (SendsHeld(a, p, o, c, None) && SendsHeld(b, p, o, c, held))
    ensures SendsHeld(a + b, p, o, c, held)
  {
    if held.Some? {
      if SendsHeld(a, p, o, c, held) {
        var i :| 0 <= i < |a| && a[i] == Group(p, o, c, held.value);
        assert (a + b)[i] == a[i];
      } else {
        var i :| 0 <= i < |b| && b[i] == Group(p, o, c, held.value);
        assert (a + b)[|a| + i] == b[i];
      }
    }
  }

  lemma PlanChannelsSends<V>(q: ParamsetKey, order: int, channels: Channels<V>, p: ParamsetKey, o: int, c: string)
    requires Distinct(channels)
    ensures SendsHeld(PlanChannels(q, order, channels), p, o, c,
                      if p == q && o == order then Lookup(channels, c) else None)
  {
    var plan := PlanChannels(q, order, channels);
    forall i | 0 <= i < |channels| ensures Lookup(channels, channels[i].0) == Some(channels[i].1) {
      LookupAt(channels, i);
    }
    if p == q && o == order && Lookup(channels, c).Some? {
      var i := LookupFound(channels, c);
      assert plan[i] == Group(p, o, c, Lookup(channels, c).value);
    }
  }

  lemma {:induction false} PlanOrdersSends<V>(q: ParamsetKey, orders: Orders<V>, p: ParamsetKey, o: int, c: string)
    requires Ascending(orders) && ChannelsDistinct(orders)
    ensures SendsHeld(PlanOrders(q, orders), p, o, c, if p == q then Lookup(LookupOr(orders, o, []), c) else None)
  {
    if orders != [] {
      PlanChannelsSends(q, orders[0].0, orders[0].1, p, o, c);
      PlanOrdersSends(q, orders[1..], p, o, c);
      if o == orders[0].0 {
        NotInTail(orders);
      }
      SendsConcat(PlanChannels(q, orders[0].0, orders[0].1), PlanOrders(q, orders[1..]), p, o, c,
                  if p == q then Lookup(LookupOr(orders, o, []), c) else None);
    }
  }

  lemma {:induction false} PlanOrdersWell<V>(p: ParamsetKey, orders: Orders<V>)
    requires Ascending(orders) && ChannelsDistinct(orders)
    ensures WellOrdered(PlanOrders(p, orders))
    ensures forall i :: 0 <= i < |PlanOrders(p, orders)| ==>
      PlanOrders(p, orders)[i].paramset == p && orders != [] && orders[0].0 <= PlanOrders(p, orders)[i].order
  {
    if orders != [] {
      var head, tail := PlanChannels(p, orders[0].0, orders[0].1), PlanOrders(p, orders[1..]);
      PlanOrdersWell(p, orders[1..]);
      var plan := PlanOrders(p, orders);
      assert forall i :: |head| <= i < |plan| ==> plan[i] == tail[i - |head|];
    }
  }

  lemma SortedChannelsDistinct<V>(orders: Orders<V>)
    requires Distinct(orders) && forall o :: Distinct(LookupOr(orders, o, []))
    ensures ChannelsDistinct(SortOrders(orders))
  {
    var sorted := SortOrders(orders);
    SortedLookup(orders, 0);
    forall i | 0 <= i < |sorted| ensures Distinct(sorted[i].1) {
      SortedLookup(orders, sorted[i].0);
      LookupAt(sorted, i);
      assert LookupOr(orders, sorted[i].0, []) == sorted[i].1;
    }
  }

  /** What is sent is what is held: each channel's values of each order in exactly one call, orders never decreasing
      within a paramset. */
  lemma {:induction false} PlanSends<V>(paramsets: Paramsets<V>, p: ParamsetKey, o: int, c: string)
    requires WellFormed(paramsets)
    ensures SendsHeld(Plan(paramsets), p, o, c, Lookup(ChannelsOf(paramsets, p, o), c))
  {
    if paramsets != [] {
      var q, orders := paramsets[0].0, paramsets[0].1;
      assert OrdersOf(paramsets, q) == orders;
      TailWellFormed(paramsets);
      assert forall x :: LookupOr(orders, x, []) == ChannelsOf(paramsets, q, x);
      SortedLookup(orders, o);
      SortedChannelsDistinct(orders);
      PlanOrdersSends(q, SortOrders(orders), p, o, c);
      PlanSends(paramsets[1..], p, o, c);
      SendsConcat(PlanOrders(q, SortOrders(orders)), Plan(paramsets[1..]), p, o, c,
                  Lookup(ChannelsOf(paramsets, p, o), c));
    }
  }

  lemma TailWellFormed<V>(paramsets: Paramsets<V>)
    requires WellFormed(paramsets) && paramsets != []
    ensures WellFormed(paramsets[1..])
    ensures OrdersOf(paramsets[1..], paramsets[0].0) == []
    ensures forall p :: p != paramsets[0].0 ==> OrdersOf(paramsets[1..], p) == OrdersOf(paramsets, p)
  {
    var tail, q := paramsets[1..], paramsets[0].0;
    NotInTail(paramsets);
    forall p ensures Distinct(OrdersOf(tail, p)) && (p != q ==> OrdersOf(tail, p) == OrdersOf(paramsets, p)) {
      assert Distinct(OrdersOf(paramsets, p));
    }
    forall p, o
      ensures Distinct(ChannelsOf(tail, p, o)) && (p != q ==> ChannelsOf(tail, p, o) == ChannelsOf(paramsets, p, o))
    {
      assert Distinct(ChannelsOf(paramsets, p, o));
    }
    forall p, o, c ensures Distinct(ValuesOf(tail, p, o, c)) {
      assert Distinct(ValuesOf(paramsets, p, o, c));
    }
  }

  lemma {:induction false} PlanWellOrdered<V>(paramsets: Paramsets<V>)
    requires WellFormed(paramsets)
    ensures WellOrdered(Plan(paramsets))
    ensures forall i :: 0 <= i < |Plan(paramsets)| ==> Lookup(paramsets, Plan(paramsets)[i].paramset).Some?
  {
    if paramsets != [] {
      var q, orders := paramsets[0].0, paramsets[0].1;
      assert OrdersOf(paramsets, q) == orders;
      TailWellFormed(paramsets);
      assert forall x :: LookupOr(orders, x, []) == ChannelsOf(paramsets, q, x);
      SortedLookup(orders, 0);
      SortedChannelsDistinct(orders);
      PlanOrdersWell(q, SortOrders(orders));
      PlanWellOrdered(paramsets[1..]);
      var head, tail, plan := PlanOrders(q, SortOrders(orders)), Plan(paramsets[1..]), Plan(paramsets);
      assert forall i :: |head| <= i < |plan| ==> plan[i] == tail[i - |head|];
      NotInTail(paramsets);
    }
  }

  // ----- the writes, one by one in order

  /** The write that decides the value of a place: the last in a sequence. */
  function Latest<V>(writes: seq<Write<V>>, x: Place): Option<Write<V>> {
    if writes == [] then None
    else if writes[|writes| - 1].At() == x then Some(writes[|writes| - 1])
    else Latest(writes[..|writes| - 1], x)
  }

  /** The write that should win: of the writes of the highest order, the last one added. */
  function Winner<V>(writes: seq<Write<V>>, x: Place): Option<Write<V>> {
    if writes == [] then None else
    var w, before := writes[|writes| - 1], Winner(writes[..|writes| - 1], x);
    if w.At() == x && (before.None? || before.value.order <= w.order) then Some(w) else before
  }

  predicate Sorted<V>(writes: seq<Write<V>>) {
    forall i, j :: 0 <= i < j < |writes| ==> writes[i].order <= writes[j].order
  }

  lemma {:induction false} ExecuteAt<V>(writes: seq<Write<V>>, store: Store<V>, x: Place)
    ensures x in Execute(writes, store) <==> Latest(writes, x).Some? || x in store
    ensures x in Execute(writes, store) ==>
      Execute(writes, store)[x] == if Latest(writes, x).Some? then Latest(writes, x).value.value else store[x]
  {
    if writes != [] {
      ExecuteAt(writes[..|writes| - 1], store, x);
    }
  }

  lemma {:induction false} LatestFound<V>(writes: seq<Write<V>>, x: Place)
    ensures Latest(writes, x).Some? ==> Latest(writes, x).value in writes
  {
    if writes != [] {
      LatestFound(writes[..|writes| - 1], x);
    }
  }

  lemma {:induction false} InsertSorts<V>(sorted: seq<Write<V>>, w: Write<V>)
    requires Sorted(sorted)
    ensures Sorted(Insert(sorted, w))
    ensures forall i :: 0 <= i < |Insert(sorted, w)| ==> Insert(sorted, w)[i] == w || Insert(sorted, w)[i] in sorted
  {
    if sorted != [] && sorted[|sorted| - 1].order > w.order {
      InsertSorts(sorted[..|sorted| - 1], w);
    }
  }

  lemma {:induction false} InsertLatest<V>(sorted: seq<Write<V>>, w: Write<V>, x: Place)
    requires Sorted(sorted)
    ensures Latest(Insert(sorted, w), x) ==
      var before := Latest(sorted, x);
      if w.At() == x && (before.None? || before.value.order <= w.order) then Some(w) else before
  {
    var r := Insert(sorted, w);
    LatestFound(sorted, x);
    if sorted == [] || sorted[|sorted| - 1].order <= w.order {
      assert r[..|r| - 1] == sorted;
    } else {
      var front := sorted[..|sorted| - 1];
      InsertLatest(front, w, x);
      assert r[..|r| - 1] == Insert(front, w);
    }
  }

  lemma {:induction false} SortedWinner<V>(writes: seq<Write<V>>, x: Place)
    ensures Sorted(StableSort(writes)) && Latest(StableSort(writes), x) == Winner(writes, x)
  {
    if writes != [] {
      SortedWinner(writes[..|writes| - 1], x);
      InsertSorts(StableSort(writes[..|writes| - 1]), writes[|writes| - 1]);
      InsertLatest(StableSort(writes[..|writes| - 1]), writes[|writes| - 1], x);
    }
  }

  lemma {:induction false} WinnerOrder<V>(writes: seq<Write<V>>, x: Place, o: int)
    ensures Winner(writes, x).None? ==> LastWrite(writes, o, x).None?
    ensures Winner(writes, x).Some? ==>
      && LastWrite(writes, Winner(writes, x).value.order, x) == Some(Winner(writes, x).value.value)
      && (o > Winner(writes, x).value.order ==> LastWrite(writes, o, x).None?)
  {
    if writes != [] {
      var front := writes[..|writes| - 1];
      WinnerOrder(front, x, o);
      WinnerOrder(front, x, writes[|writes| - 1].order);
    }
  }

  // ----- the calls

  /** The value a group sends to a place. */
  function GroupValue<V>(g: Group<V>, x: Place): Option<V> {
    if g.paramset == x.paramset && g.channel == x.channel then Lookup(g.values, x.parameter) else None
  }

  function PlanLatest<V>(plan: seq<Group<V>>, x: Place): Option<V> {
    if plan == [] then None else
    match GroupValue(plan[|plan| - 1], x)
    case Some(v) => Some(v)
    case None => PlanLatest(plan[..|plan| - 1], x)
  }

  lemma {:induction false} LookupFront<V>(d: Dict<string, V>, q: string)
    requires d != [] && Distinct(d)
    ensures Lookup(d, q) == if d[|d| - 1].0 == q then Some(d[|d| - 1].1) else Lookup(d[..|d| - 1], q)
  {
    if |d| > 1 {
      LookupFront(d[1..], q);
      assert d[1..][..|d| - 2] == d[..|d| - 1][1..];
    }
  }

  lemma {:induction false} AssignAt<V>(p: ParamsetKey, c: string, values: Dict<string, V>, store: Store<V>, x: Place)
    requires Distinct(values)
    ensures var v := if x.paramset == p && x.channel == c then Lookup(values, x.parameter) else None;
      var r := Assign(p, c, values, store);
      (x in r <==> v.Some? || x in store) && (x in r ==> r[x] == if v.Some? then v.value else store[x])
  {
    if values != [] {
      LookupFront(values, x.parameter);
      AssignAt(p, c, values[..|values| - 1], store, x);
    }
  }

  lemma PerformAt<V>(g: Group<V>, store: Store<V>, x: Place)
    requires Distinct(g.values)
    ensures var r, v := Perform(g.ToCall(), store), GroupValue(g, x);
      (x in r <==> v.Some? || x in store) && (x in r ==> r[x] == if v.Some? then v.value else store[x])
  {
    AssignAt(g.paramset, g.channel, g.values, store, x);
    if |g.values| == 1 {
      assert g.values == [(g.values[0].0, g.values[0].1)];
    }
  }

  lemma {:induction false} ReplayAt<V>(plan: seq<Group<V>>, store: Store<V>, x: Place)
    requires forall i :: 0 <= i < |plan| ==> Distinct(plan[i].values)
    ensures var r, v := Replay(CallsOf(plan), store), PlanLatest(plan, x);
      (x in r <==> v.Some? || x in store) && (x in r ==> r[x] == if v.Some? then v.value else store[x])
  {
    if plan != [] {
      var front := plan[..|plan| - 1];
      ReplayAt(front, store, x);
      assert CallsOf(plan)[..|plan| - 1] == CallsOf(front);
      PerformAt(plan[|plan| - 1], Replay(CallsOf(front), store), x);
    }
  }

  lemma {:induction false} PlanLatestIs<V>(plan: seq<Group<V>>, x: Place, i: int)
    requires -1 <= i < |plan|
    requires forall j :: i < j < |plan| ==> GroupValue(plan[j], x).None?
    requires i >= 0 ==> GroupValue(plan[i], x).Some?
    ensures PlanLatest(plan, x) == if i < 0 then None else GroupValue(plan[i], x)
  {
    if plan != [] && i < |plan| - 1 {
      PlanLatestIs(plan[..|plan| - 1], x, i);
    }
  }

  lemma PlanWinner<V(!new)>(paramsets: Paramsets<V>, writes: seq<Write<V>>, x: Place)
    requires Holds(paramsets, writes)
    ensures PlanLatest(Plan(paramsets), x) ==
      match Winner(writes, x) case None => None case Some(w) => Some(w.value)
  {
    var plan, winner := Plan(paramsets), Winner(writes, x);
    PlanWellOrdered(paramsets);
    forall j | 0 <= j < |plan| && plan[j].paramset == x.paramset && plan[j].channel == x.channel
      ensures GroupValue(plan[j], x) == LastWrite(writes, plan[j].order, x)
    {
      PlanSends(paramsets, x.paramset, plan[j].order, x.channel);
      assert Lookup(ValuesOf(paramsets, x.paramset, plan[j].order, x.channel), x.parameter) ==
        LastWrite(writes, plan[j].order, x);
    }
    forall o
      ensures winner.None? || o > winner.value.order ==> LastWrite(writes, o, x).None?
    {
      WinnerOrder(writes, x, o);
    }
    if winner.None? {
      PlanLatestIs(plan, x, -1);
    } else {
      var o := winner.value.order;
      WinnerOrder(writes, x, o);
      PlanSends(paramsets, x.paramset, o, x.channel);
      assert Lookup(ValuesOf(paramsets, x.paramset, o, x.channel), x.parameter) == Some(winner.value.value);
      var i :| 0 <= i < |plan| &&
        plan[i] == Group(x.paramset, o, x.channel, ValuesOf(paramsets, x.paramset, o, x.channel));
      PlanLatestIs(plan, x, i);
    }
  }

  /** Replaying the calls made by `send_data` leaves every backend in the state in which executing all collected writes,
      stably sorted by their order, leaves it. */
  lemma CollectorRefinesWrites<V(!new)>(paramsets: Paramsets<V>, writes: seq<Write<V>>, store: Store<V>)
    requires Holds(paramsets, writes)
    ensures Replay(CallsOf(Plan(paramsets)), store) == Execute(StableSort(writes), store)
  {
    var plan := Plan(paramsets);
    PlanWellOrdered(paramsets);
    forall i | 0 <= i < |plan| ensures Distinct(plan[i].values) {
      var g := plan[i];
      PlanSends(paramsets, g.paramset, g.order, g.channel);
      assert Distinct(ValuesOf(paramsets, g.paramset, g.order, g.channel));
    }
    var sent, executed := Replay(CallsOf(plan), store), Execute(StableSort(writes), store);
    forall x
      ensures x in sent <==> x in executed
      ensures x in sent ==> sent[x] == executed[x]
    {
      ReplayAt(plan, store, x);
      ExecuteAt(StableSort(writes), store, x);
      SortedWinner(writes, x);
      PlanWinner(paramsets, writes, x);
    }
  }

  /** What the calls of `send_data` leave behind on any backend: the writes added so far, executed one by one in stable
      order. */
  method SendWrites<V(!new)>(collector: CallParameterCollector<V>, ghost store: Store<V>) returns (calls: seq<Call<V>>)
    requires collector.Valid()
    ensures Replay(calls, store) == Execute(StableSort(collector.writes), store)
  {
    calls := collector.SendData();
    CollectorRefinesWrites(collector.paramsets, collector.writes, store);
  }

  predicate IsGroup<V>(plan: seq<Group<V>>, i: int, p: ParamsetKey, o: int, c: string) {
    0 <= i < |plan| && plan[i].paramset == p && plan[i].order == o && plan[i].channel == c
  }

  predicate IsWrite<V>(writes: seq<Write<V>>, k: int, p: ParamsetKey, o: int, c: string) {
    0 <= k < |writes| && writes[k].paramset == p && writes[k].order == o && writes[k].channel == c
  }

  lemma {:induction false} LastWriteFrom<V>(writes: seq<Write<V>>, o: int, x: Place)
    ensures LastWrite(writes, o, x).Some? <==> exists k ::
      0 <= k < |writes| && writes[k].order == o && writes[k].At() == x
  {
    if writes != [] {
      LastWriteFrom(writes[..|writes| - 1], o, x);
    }
  }

  lemma GroupValues<V(!new)>(paramsets: Paramsets<V>, writes: seq<Write<V>>, i: int, p: ParamsetKey, o: int, c: string)
    requires Holds(paramsets, writes) && IsGroup(Plan(paramsets), i, p, o, c)
    ensures forall q :: Lookup(Plan(paramsets)[i].values, q) == LastWrite(writes, o, Place(p, c, q))
    ensures exists k :: IsWrite(writes, k, p, o, c)
  {
    PlanSends(paramsets, p, o, c);
    var values := Plan(paramsets)[i].values;
    assert values == ValuesOf(paramsets, p, o, c);
    var q := values[0].0;
    assert Lookup(values, q).Some?;
    LastWriteFrom(writes, o, Place(p, c, q));
    var k :| 0 <= k < |writes| && writes[k].order == o && writes[k].At() == Place(p, c, q);
    assert IsWrite(writes, k, p, o, c);
  }

  lemma WriteHasGroup<V(!new)>(paramsets: Paramsets<V>, writes: seq<Write<V>>, k: int, p: ParamsetKey, o: int,
                               c: string)
    requires Holds(paramsets, writes) && IsWrite(writes, k, p, o, c)
    ensures exists i :: IsGroup(Plan(paramsets), i, p, o, c)
  {
    PlanSends(paramsets, p, o, c);
    var x := writes[k].At();
    LastWriteFrom(writes, o, x);
    assert Lookup(ValuesOf(paramsets, p, o, c), x.parameter) == LastWrite(writes, o, x);
    var i :| 0 <= i < |Plan(paramsets)| && Plan(paramsets)[i] == Group(p, o, c, ValuesOf(paramsets, p, o, c));
    assert IsGroup(Plan(paramsets), i, p, o, c);
  }

  /** All writes of one paramset, order and channel go out in exactly one call, which carries the last value written for
      each of their parameters; no call is made for anything else. */
  lemma OneCallPerGroup<V(!new)>(paramsets: Paramsets<V>, writes: seq<Write<V>>, p: ParamsetKey, o: int, c: string)
    requires Holds(paramsets, writes)
    ensures (exists k :: IsWrite(writes, k, p, o, c)) <==> (exists i :: IsGroup(Plan(paramsets), i, p, o, c))
    ensures forall i, j :: IsGroup(Plan(paramsets), i, p, o, c) && IsGroup(Plan(paramsets), j, p, o, c) ==> i == j
    ensures forall i :: IsGroup(Plan(paramsets), i, p, o, c) ==>
      forall q :: Lookup(Plan(paramsets)[i].values, q) == LastWrite(writes, o, Place(p, c, q))
  {
    hide Holds, Plan;
    forall k | IsWrite(writes, k, p, o, c) ensures exists i :: IsGroup(Plan(paramsets), i, p, o, c) {
      WriteHasGroup(paramsets, writes, k, p, o, c);
    }
    forall i | IsGroup(Plan(paramsets), i, p, o, c)
      ensures exists k :: IsWrite(writes, k, p, o, c)
      ensures forall q :: Lookup(Plan(paramsets)[i].values, q) == LastWrite(writes, o, Place(p, c, q))
    {
      GroupValues(paramsets, writes, i, p, o, c);
    }
    assert WellOrdered(Plan(paramsets)) by { HeldWellOrdered(paramsets, writes); }
  }

  /** All writes of a paramset, order and channel are of the same parameter. */
  ghost predicate OneParameter<V>(writes: seq<Write<V>>, p: ParamsetKey, o: int, c: string) {
    forall j, k :: IsWrite(writes, j, p, o, c) && IsWrite(writes, k, p, o, c) ==>
      writes[j].parameter == writes[k].parameter
  }

  /** A group goes out as a single value exactly if it is for VALUES and all its writes were of one parameter; else as a
      paramset. */
  lemma SentAsValueIff<V(!new)>(paramsets: Paramsets<V>, writes: seq<Write<V>>, i: nat)
    requires Holds(paramsets, writes) && i < |Plan(paramsets)|
    ensures var g, call := Plan(paramsets)[i], CallsOf(Plan(paramsets))[i];
      && call.channel == g.channel && (call.PutParamset? ==> call.paramset == g.paramset)
      && (call.SetValue? <==> g.paramset == Values && OneParameter(writes, g.paramset, g.order, g.channel))
  {
    hide Holds, Plan;
    var g := Plan(paramsets)[i];
    assert IsGroup(Plan(paramsets), i, g.paramset, g.order, g.channel);
    GroupValues(paramsets, writes, i, g.paramset, g.order, g.channel);
    GroupDistinct(paramsets, writes, i);
    forall q ensures Lookup(g.values, q).Some? <==>
      exists k :: IsWrite(writes, k, g.paramset, g.order, g.channel) && writes[k].parameter == q
    {
      LastWriteFrom(writes, g.order, Place(g.paramset, g.channel, q));
    }
    forall k | IsWrite(writes, k, g.paramset, g.order, g.channel) ensures Lookup(g.values, writes[k].parameter).Some? {
    }
    if |g.values| > 1 {
      LookupAt(g.values, 0);
      LookupAt(g.values, 1);
      var j :| IsWrite(writes, j, g.paramset, g.order, g.channel) && writes[j].parameter == g.values[0].0;
      var k :| IsWrite(writes, k, g.paramset, g.order, g.channel) && writes[k].parameter == g.values[1].0;
      assert writes[j].parameter != writes[k].parameter;
    } else {
      OneEntry(g.values);
    }
  }

  lemma OneEntry<V>(values: Dict<string, V>)
    requires |values| == 1
    ensures forall p, q :: Lookup(values, p).Some? && Lookup(values, q).Some? ==> p == q
  {
  }

  lemma GroupDistinct<V(!new)>(paramsets: Paramsets<V>, writes: seq<Write<V>>, i: nat)
    requires Holds(paramsets, writes) && i < |Plan(paramsets)|
    ensures Distinct(Plan(paramsets)[i].values) && Plan(paramsets)[i].values != []
  {
    var g := Plan(paramsets)[i];
    PlanSends(paramsets, g.paramset, g.order, g.channel);
    assert Distinct(ValuesOf(paramsets, g.paramset, g.order, g.channel));
  }

  lemma HeldWellOrdered<V(!new)>(paramsets: Paramsets<V>, writes: seq<Write<V>>)
    requires Holds(paramsets, writes)
    ensures WellOrdered(Plan(paramsets))
  {
    PlanWellOrdered(paramsets);
  }

  function OfOrder<V>(writes: seq<Write<V>>, o: int): seq<Write<V>> {
    if writes == [] then []
    else OfOrder(writes[..|writes| - 1], o) + if writes[|writes| - 1].order == o then [writes[|writes| - 1]] else []
  }

  lemma {:induction false} InsertStable<V>(sorted: seq<Write<V>>, w: Write<V>, o: int)
    requires Sorted(sorted)
    ensures OfOrder(Insert(sorted, w), o) == OfOrder(sorted, o) + if w.order == o then [w] else []
  {
    var r := Insert(sorted, w);
    if sorted == [] || sorted[|sorted| - 1].order <= w.order {
      assert r[..|r| - 1] == sorted;
    } else {
      var front := sorted[..|sorted| - 1];
      InsertStable(front, w, o);
      assert r[..|r| - 1] == Insert(front, w);
    }
  }

  /** The order the writes are executed in: ascending, and writes of the same order in the order they were added. */
  lemma {:induction false} StableSortSorts<V>(writes: seq<Write<V>>, o: int)
    ensures Sorted(StableSort(writes)) && OfOrder(StableSort(writes), o) == OfOrder(writes, o)
  {
    if writes != [] {
      StableSortSorts(writes[..|writes| - 1], o);
      InsertSorts(StableSort(writes[..|writes| - 1]), writes[|writes| - 1]);
      InsertStable(StableSort(writes[..|writes| - 1]), writes[|writes| - 1], o);
    }
  }
}
