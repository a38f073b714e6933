/** The cache of device descriptions: a raw list per interface, and two indexes derived from it. */
module DeviceDescriptions {
  import opened Wrappers
  import opened Numerals
  import opened Addresses

  datatype DeviceDescription = DeviceDescription(address: string, model: string, children: seq<string>)

  type Raw = seq<DeviceDescription>

  type AddressIndex = map<string, set<string>>

  type DescriptionIndex = map<string, DeviceDescription>

  // ----- what the list stands for

  /** No address is described twice. */
  predicate Unique(raw: Raw) {
    forall i, j :: 0 <= i < j < |raw| ==> raw[i].address != raw[j].address
  }

  predicate AllSplittable(raw: Raw) {
    forall d <- raw :: Splittable(d.address)
  }

  /** The descriptions keyed by address. */
  function ByAddress(raw: Raw): DescriptionIndex {
    if raw == [] then map[] else ByAddress(raw[..|raw| - 1])[raw[|raw| - 1].address := raw[|raw| - 1]]
  }

  /** The devices that appear in the list, themselves or by one of their channels. */
  function Devices(raw: Raw): set<string>
    requires AllSplittable(raw)
  {
    set d | d in raw :: DevicePart(d.address)
  }

  /** The list without the given addresses. */
  function Without(raw: Raw, gone: set<string>): (r: Raw)
    ensures forall d :: d in r <==> d in raw && d.address !in gone
  {
    if raw == [] then []
    else
      var last := raw[|raw| - 1];
      assert forall d :: d in raw <==> d in raw[..|raw| - 1] || d == last;
      Without(raw[..|raw| - 1], gone) + if last.address in gone then [] else [last]
  }

  lemma WithoutLast(raw: Raw, last: DeviceDescription, gone: set<string>)
    ensures Without(raw + [last], gone) == Without(raw, gone) + if last.address in gone then [] else [last]
  {
    assert (raw + [last])[..|raw|] == raw;
  }

  /** Leaving out addresses keeps the order of the rest: it works on the parts of a list one after the other. */
  lemma {:induction false} WithoutConcat(a: Raw, b: Raw, gone: set<string>)
    ensures Without(a + b, gone) == Without(a, gone) + Without(b, gone)
    decreases |b|
  {
    hide Without;
    if b == [] {
      assert a + b == a;
      assert Without([], gone) == [] by { WithoutNothing(gone); }
    } else {
      var front, last := b[..|b| - 1], b[|b| - 1];
      WithoutConcat(a, front, gone);
      WithoutLast(front, last, gone);
      WithoutLast(a + front, last, gone);
      assert front + [last] == b && a + front + [last] == a + b;
    }
  }

  lemma WithoutNothing(gone: set<string>)
    ensures Without([], gone) == []
  {
  }

  lemma {:induction false} WithoutUnique(raw: Raw, gone: set<string>)
    requires Unique(raw)
    ensures Unique(Without(raw, gone))
  {
    if raw != [] {
      var front, last := raw[..|raw| - 1], raw[|raw| - 1];
      WithoutUnique(front, gone);
      forall d <- Without(front, gone) ensures d.address != last.address {
        assert d in front;
      }
    }
  }

  lemma AppendByAddress(raw: Raw, d: DeviceDescription)
    ensures ByAddress(raw + [d]) == ByAddress(raw)[d.address := d]
  {
    assert (raw + [d])[..|raw|] == raw;
  }

  lemma UpdateMinus<K, V>(m: map<K, V>, k: K, v: V, gone: set<K>)
    ensures m[k := v] - gone == if k in gone then m - gone else (m - gone)[k := v]
  {
  }

  lemma {:induction false} WithoutByAddress(raw: Raw, gone: set<string>)
    ensures ByAddress(Without(raw, gone)) == ByAddress(raw) - gone
  {
    if raw != [] {
      var front, last := raw[..|raw| - 1], raw[|raw| - 1];
      WithoutByAddress(front, gone);
      AppendByAddress(Without(front, gone), last);
      UpdateMinus(ByAddress(front), last.address, last, gone);
      assert last.address in gone ==> Without(raw, gone) == Without(front, gone);
    }
  }

  /** With unique addresses the dictionary holds exactly the list. */
  lemma {:induction false} ByAddressExact(raw: Raw, d: DeviceDescription)
    requires Unique(raw)
    ensures d in raw <==> d.address in ByAddress(raw) && ByAddress(raw)[d.address] == d
  {
    if raw != [] {
      var front, last := raw[..|raw| - 1], raw[|raw| - 1];
      ByAddressExact(front, d);
      assert d in raw <==> d in front || d == last;
    }
  }

  // ----- the indexes of one interface

  predicate NonEmpty(index: AddressIndex) { forall a <- index :: index[a] != {} }

  /** The list is free of duplicates, the descriptions are the list keyed by address, and the address index knows no
      device the list does not have. */
  ghost predicate Fits(raw: Raw, index: AddressIndex, descriptions: DescriptionIndex) {
    Unique(raw) && AllSplittable(raw) && descriptions == ByAddress(raw) && NonEmpty(index) && index.Keys <= Devices(raw)
  }

  /** The keys of the address index are exactly the devices of the list. */
  ghost predicate Covers(raw: Raw, index: AddressIndex) {
    AllSplittable(raw) && index.Keys == Devices(raw)
  }

  /** Devices leave the address index when they are named themselves. */
  function Surviving(index: AddressIndex, gone: set<string>): AddressIndex {
    index - (set a | a in gone && !IsChannel(a))
  }

  predicate IsRemoval(gone: set<string>, device: string) {
    device in gone && !IsChannel(device) && forall a <- gone :: Splittable(a) && DevicePart(a) == device
  }

  lemma WithoutDevices(raw: Raw, gone: set<string>, device: string, a: string)
    requires AllSplittable(raw) && IsRemoval(gone, device)
    ensures AllSplittable(Without(raw, gone))
    ensures a in Devices(Without(raw, gone)) ==> a in Devices(raw)
    ensures a in Devices(raw) && a != device ==> a in Devices(Without(raw, gone))
  {
    hide IsChannel, Splittable, DevicePart;
    if a in Devices(raw) && a != device {
      var d :| d in raw && DevicePart(d.address) == a;
      assert d in Without(raw, gone);
    }
  }

  /** Removing a device with the channels named keeps the indexes in step; the address index stays complete exactly if
      nothing of the device is left. */
  lemma RemovalFits(raw: Raw, index: AddressIndex, descriptions: DescriptionIndex, gone: set<string>, device: string)
    requires Fits(raw, index, descriptions) && IsRemoval(gone, device)
    ensures AllSplittable(Without(raw, gone))
    ensures Fits(Without(raw, gone), Surviving(index, gone), descriptions - gone)
    ensures Covers(raw, index) ==>
      (Covers(Without(raw, gone), Surviving(index, gone)) <==> device !in Devices(Without(raw, gone)))
  {
    hide IsChannel, Splittable, DevicePart, Devices, Without, ByAddress;
    WithoutUnique(raw, gone);
    WithoutByAddress(raw, gone);
    forall a
      ensures AllSplittable(Without(raw, gone))
      ensures a in Devices(Without(raw, gone)) ==> a in Devices(raw)
      ensures a in Devices(raw) && a != device ==> a in Devices(Without(raw, gone))
    {
      WithoutDevices(raw, gone, device, a);
    }
    WithoutDevices(raw, gone, device, device);
    assert (set a | a in gone && !IsChannel(a)) == {device} by {
      forall a <- gone | !IsChannel(a) ensures a == device {
        DeviceOfDevice(a);
      }
    }
  }

  /** A removal that names the device only, when the list has a channel of it, leaves the channel behind and the address
      index incomplete. */
  lemma ChannelLeftBehind(device: string, model: string)
    requires ':' !in device
    ensures var d, c := DeviceDescription(device, model, [device + ":1"]), DeviceDescription(device + ":1", model, []);
      var index := map[device := {device, device + ":1"}];
      && Fits([d, c], index, ByAddress([d, c])) && Covers([d, c], index) && IsRemoval({device}, device)
      && Without([d, c], {device}) == [c]
      && Fits([c], Surviving(index, {device}), ByAddress([d, c]) - {device})
      && !Covers([c], Surviving(index, {device}))
  {
    hide Splittable, DevicePart, IsChannel, ByAddress, Without;
    var d, c := DeviceDescription(device, model, [device + ":1"]), DeviceDescription(device + ":1", model, []);
    var index := map[device := {device, device + ":1"}];
    assert Splittable(c.address) && DevicePart(c.address) == device by { FirstChannel(device); }
    assert !IsChannel(device) && IsChannel(c.address) by { FirstChannel(device); }
    DeviceOfDevice(device);
    assert Devices([d, c]) == {device} && Devices([c]) == {device};
    assert Without([d, c], {device}) == [c] by { WithoutFirst(d, c); }
    RemovalFits([d, c], index, ByAddress([d, c]), {device}, device);
  }

  lemma WithoutFirst(d: DeviceDescription, c: DeviceDescription)
    requires d.address != c.address
    ensures Without([d, c], {d.address}) == [c]
  {
    assert [d, c][..1] == [d] && [d][..0] == [];
    assert Without([], {d.address}) == [];
    assert Without([d], {d.address}) == [];
  }

  lemma FirstChannel(device: string)
    requires ':' !in device
    ensures var a := device + ":1"; IsChannel(a) && !IsChannel(device) && Splittable(a) && DevicePart(a) == device
  {
    hide Splittable, DevicePart;
    AddressRoundTrip(device, Some(1));
    assert ChannelAddress(device, Some(1)) == device + ":1" by { assert Print(1, 10) == "1"; }
    assert (device + ":1")[|device|] == ':';
  }

  lemma DeviceOfDevice(a: string)
    requires !IsChannel(a)
    ensures Splittable(a) && DevicePart(a) == a
  {
  }

  lemma AddedDevices(raw: Raw, d: DeviceDescription)
    requires AllSplittable(raw) && Splittable(d.address)
    ensures AllSplittable(Without(raw, {d.address}) + [d])
    ensures Devices(Without(raw, {d.address}) + [d]) == Devices(raw) + {DevicePart(d.address)}
  {
    hide IsChannel, Splittable, DevicePart;
    var kept := Without(raw, {d.address});
    var longer := kept + [d];
    assert forall e :: e in longer <==> e in kept || e == d;
    forall a | a in Devices(raw) ensures a in Devices(longer) || a == DevicePart(d.address) {
      var e :| e in raw && DevicePart(e.address) == a;
      assert e.address == d.address || e in longer;
    }
  }

  lemma AdditionFits(raw: Raw, index: AddressIndex, descriptions: DescriptionIndex, d: DeviceDescription,
                     index': AddressIndex)
    requires Fits(raw, index, descriptions) && Splittable(d.address) && NonEmpty(index')
    requires index'.Keys == Surviving(index, {d.address}).Keys + {DevicePart(d.address)}
    ensures var raw' := Without(raw, {d.address}) + [d];
      && Fits(raw', index', (descriptions - {d.address})[d.address := d])
      && (Covers(raw, index) ==> Covers(raw', index'))
  {
    hide IsChannel, Splittable, DevicePart, Devices, ByAddress;
    var kept := Without(raw, {d.address});
    WithoutUnique(raw, {d.address});
    WithoutByAddress(raw, {d.address});
    AddedDevices(raw, d);
    AppendByAddress(kept, d);
    assert Unique(kept + [d]) by {
      forall i | 0 <= i < |kept| ensures kept[i].address != d.address {
        assert kept[i] in kept;
      }
    }
    assert Surviving(index, {d.address}).Keys + {DevicePart(d.address)} == index.Keys + {DevicePart(d.address)} by {
      if !IsChannel(d.address) {
        DeviceOfDevice(d.address);
      }
    }
  }

  class DeviceDescriptionCache {
    var raw: map<string, Raw>
    var addresses: map<string, AddressIndex>
    var descriptions: map<string, DescriptionIndex>

    function RawOf(i: string): Raw
      reads `raw
    {
      if i in raw then raw[i] else []
    }

    function AddressesOf(i: string): AddressIndex
      reads `addresses
    {
      if i in addresses then addresses[i] else map[]
    }

    function DescriptionsOf(i: string): DescriptionIndex
      reads `descriptions
    {
      if i in descriptions then descriptions[i] else map[]
    }

    ghost predicate FitsAt(i: string)
      reads this
    {
      Fits(RawOf(i), AddressesOf(i), DescriptionsOf(i))
    }

    ghost predicate Valid()
      reads this
    {
      forall i :: FitsAt(i)
    }

    ghost predicate Complete(i: string)
      reads this
    {
      Covers(RawOf(i), AddressesOf(i))
    }

    constructor ()
      ensures Valid() && raw == map[] && forall i :: Complete(i)
    {
      raw, addresses, descriptions := map[], map[], map[];
    }

    method AddDeviceDescription(i: string, d: DeviceDescription)
      requires Valid() && Splittable(d.address)
      modifies this
      ensures Valid()
      ensures RawOf(i) == Without(old(RawOf(i)), {d.address}) + [d]
      ensures forall k :: k != i ==> RawOf(k) == old(RawOf(k))
      ensures forall k :: k != i ==> AddressesOf(k) == old(AddressesOf(k))
      ensures forall k :: k != i ==> DescriptionsOf(k) == old(DescriptionsOf(k))
      ensures old(Complete(i)) ==> Complete(i)
    {
      hide Fits, Covers, Splittable, DevicePart, Without, ByAddress, Surviving, NonEmpty;
      assert FitsAt(i);
      FitsNonEmpty(RawOf(i), AddressesOf(i), DescriptionsOf(i));
      if i !in raw {
        raw := raw[i := []];
      }
      assert forall k :: RawOf(k) == old(RawOf(k));
      Remove(i, [d.address]);
      assert forall k :: k != i ==> RawOf(k) == old(RawOf(k));
      assert Named([d.address]) == {d.address};
      raw := raw[i := raw[i] + [d]];
      assert forall k :: k != i ==> RawOf(k) == old(RawOf(k));
      SurvivingNonEmpty(old(AddressesOf(i)), {d.address});
      Convert(i, d);
      AdditionFits(old(RawOf(i)), old(AddressesOf(i)), old(DescriptionsOf(i)), d, AddressesOf(i));
      forall k ensures FitsAt(k) {
        assert old(FitsAt(k));
      }
    }

    /** `remove_device`: the device and the channels it knows of. The address index stays complete exactly if that was
        all the list had of the device. */
    method RemoveDevice(i: string, device: string, channels: seq<string>)
      requires Valid()
      requires IsRemoval(Named([device] + channels), device)
      modifies this
      ensures Valid()
      ensures forall k :: k != i ==> RawOf(k) == old(RawOf(k))
      ensures forall k :: k != i ==> AddressesOf(k) == old(AddressesOf(k))
      ensures forall k :: k != i ==> DescriptionsOf(k) == old(DescriptionsOf(k))
      ensures RawOf(i) == Without(old(RawOf(i)), Named([device] + channels)) && AllSplittable(RawOf(i))
      ensures old(Complete(i)) ==> (Complete(i) <==> device !in Devices(RawOf(i)))
    {
      hide Fits, Covers, Splittable, DevicePart, Without, ByAddress, Surviving, IsRemoval, NonEmpty;
      assert FitsAt(i);
      FitsNonEmpty(RawOf(i), AddressesOf(i), DescriptionsOf(i));
      RemovalFits(RawOf(i), AddressesOf(i), DescriptionsOf(i), Named([device] + channels), device);
      Remove(i, [device] + channels);
      forall k ensures FitsAt(k) {
        assert old(FitsAt(k));
      }
    }

    method Remove(i: string, deleted: seq<string>)
      requires NonEmpty(AddressesOf(i))
      modifies this
      ensures i in raw && RawOf(i) == Without(old(RawOf(i)), Named(deleted))
      ensures forall k :: k != i ==> RawOf(k) == old(RawOf(k))
      ensures forall k :: k != i ==> AddressesOf(k) == old(AddressesOf(k))
      ensures forall k :: k != i ==> DescriptionsOf(k) == old(DescriptionsOf(k))
      ensures AddressesOf(i) == Surviving(old(AddressesOf(i)), Named(deleted))
      ensures DescriptionsOf(i) == old(DescriptionsOf(i)) - Named(deleted)
    {
      hide Without, IsChannel;
      var gone := Named(deleted);
      raw := raw[i := Without(RawOf(i), gone)];
      for n := 0 to |deleted|
        invariant raw == old(raw)[i := Without(old(RawOf(i)), gone)]
        invariant forall k :: k != i ==> AddressesOf(k) == old(AddressesOf(k))
        invariant forall k :: k != i ==> DescriptionsOf(k) == old(DescriptionsOf(k))
        invariant AddressesOf(i) == Surviving(old(AddressesOf(i)), Named(deleted[..n]))
        invariant DescriptionsOf(i) == old(DescriptionsOf(i)) - Named(deleted[..n])
      {
        var a := deleted[n];
        OneMoreGone(old(AddressesOf(i)), old(DescriptionsOf(i)), deleted, n);
        if !IsChannel(a) && a in AddressesOf(i) && AddressesOf(i)[a] != {} {
          addresses := addresses[i := addresses[i] - {a}];
        }
        if a in DescriptionsOf(i) {
          descriptions := descriptions[i := descriptions[i] - {a}];
        }
      }
      assert deleted[..|deleted|] == deleted;
    }

    /** `_convert_device_description` */
    method Convert(i: string, d: DeviceDescription)
      requires Splittable(d.address) && NonEmpty(AddressesOf(i))
      modifies `addresses, `descriptions
      ensures forall k :: k != i ==> AddressesOf(k) == old(AddressesOf(k))
      ensures forall k :: k != i ==> DescriptionsOf(k) == old(DescriptionsOf(k))
      ensures NonEmpty(AddressesOf(i)) && AddressesOf(i).Keys == old(AddressesOf(i)).Keys + {DevicePart(d.address)}
      ensures DescriptionsOf(i) == old(DescriptionsOf(i))[d.address := d]
    {
      var index := AddressesOf(i);
      descriptions := descriptions[i := DescriptionsOf(i)[d.address := d]];
      if !IsChannel(d.address) && d.address !in index {
        index := index[d.address := {d.address}];
      }
      if IsChannel(d.address) {
        var device := DevicePart(d.address);
        if device !in index {
          index := index[device := {}];
        }
        index := index[device := index[device] + {d.address}];
      }
      addresses := addresses[i := index];
    }

    ghost predicate LoadedAt(i: string, data: Raw)
      reads this
    {
      Covers(data, AddressesOf(i)) && NonEmpty(AddressesOf(i)) && DescriptionsOf(i) == ByAddress(data)
    }

    /** `load` into a fresh cache: the list of every interface is taken over and converted. */
    method Load(data: map<string, Raw>)
      requires raw == map[] && addresses == map[] && descriptions == map[]
      requires forall i <- data :: Unique(data[i]) && AllSplittable(data[i])
      modifies this
      ensures Valid() && raw == data && forall i :: Complete(i)
    {
      raw := data;
      var todo := data.Keys;
      while todo != {}
        invariant raw == data && todo <= data.Keys
        invariant forall i :: LoadedAt(i, if i in todo then [] else RawOf(i))
        decreases todo
      {
        var i :| i in todo;
        ConvertAll(i, data[i]);
        todo := todo - {i};
      }
    }

    /** `_convert_device_descriptions` */
    method ConvertAll(i: string, list: Raw)
      requires LoadedAt(i, []) && AllSplittable(list)
      modifies `addresses, `descriptions
      ensures forall k :: k != i ==> AddressesOf(k) == old(AddressesOf(k))
      ensures forall k :: k != i ==> DescriptionsOf(k) == old(DescriptionsOf(k))
      ensures LoadedAt(i, list)
    {
      hide Splittable, DevicePart, ByAddress;
      for n := 0 to |list|
        invariant raw == old(raw)
        invariant forall k :: k != i ==> AddressesOf(k) == old(AddressesOf(k))
        invariant forall k :: k != i ==> DescriptionsOf(k) == old(DescriptionsOf(k))
        invariant LoadedAt(i, list[..n])
      {
        assert list[..n + 1] == list[..n] + [list[n]];
        AppendByAddress(list[..n], list[n]);
        Convert(i, list[n]);
      }
      assert list[..|list|] == list;
    }
  }

  lemma OneMoreGone(index: AddressIndex, descriptions: DescriptionIndex, deleted: seq<string>, n: nat)
    requires n < |deleted| && NonEmpty(index)
    ensures var a, before := deleted[n], Surviving(index, Named(deleted[..n]));
      && Surviving(index, Named(deleted[..n + 1])) ==
           (if !IsChannel(a) && a in before && before[a] != {} then before - {a} else before)
      && descriptions - Named(deleted[..n + 1]) == descriptions - Named(deleted[..n]) - {a}
  {
    hide IsChannel;
    var a := deleted[n];
    assert Named(deleted[..n + 1]) == Named(deleted[..n]) + {a} by {
      assert deleted[..n + 1] == deleted[..n] + [a];
    }
  }

  lemma SurvivingNonEmpty(index: AddressIndex, gone: set<string>)
    requires NonEmpty(index)
    ensures NonEmpty(Surviving(index, gone))
  {
  }

  lemma FitsNonEmpty(raw: Raw, index: AddressIndex, descriptions: DescriptionIndex)
    requires Fits(raw, index, descriptions)
    ensures NonEmpty(index)
  {
  }
}
