/** The cache of paramset descriptions, and its index from (device, parameter) to channel numbers. */
module ParamsetDescriptions {
  import opened Wrappers
  import opened Addresses

  /** The parameters of one paramset; what is known about each is not looked at here. */
  type Parameters = set<string>

  /** The paramsets of one channel, by paramset key. */
  type Paramsets = map<string, Parameters>

  type Channels = map<string, Paramsets>

  type Raw = map<string, Channels>

  type ChannelIndex = map<(string, string), set<Option<nat>>>

  function Indexed(index: ChannelIndex, device: string, parameter: string): set<Option<nat>> {
    if (device, parameter) in index then index[(device, parameter)] else {}
  }

  /** What a paramset of channel `c` adds to an entry of the index. */
  function Share(c: string, parameters: Parameters, d: string, p: string): set<Option<nat>>
    requires Splittable(c)
  {
    if d == DevicePart(c) && p in parameters then {ChannelNo(c)} else {}
  }

  predicate AllSplittable(raw: Raw) {
    forall i <- raw :: forall c <- raw[i] :: Splittable(c)
  }

  /** Some paramset of the channel has the parameter. */
  predicate HasParameter(raw: Raw, i: string, c: string, k: string, p: string) {
    i in raw && c in raw[i] && k in raw[i][c] && p in raw[i][c][k]
  }

  /** The index knows every channel number that has the parameter. */
  ghost predicate Contains(index: ChannelIndex, raw: Raw) {
    forall i, c, k, p :: HasParameter(raw, i, c, k, p) && Splittable(c) ==>
      ChannelNo(c) in Indexed(index, DevicePart(c), p)
  }

  /** The index knows no other channel number. */
  ghost predicate NoMore(index: ChannelIndex, raw: Raw) {
    forall d, p, no :: no in Indexed(index, d, p) ==> Explained(raw, d, p, no)
  }

  ghost predicate Explained(raw: Raw, d: string, p: string, no: Option<nat>) {
    exists i, c, k :: HasParameter(raw, i, c, k, p) && Splittable(c) && DevicePart(c) == d && ChannelNo(c) == no
  }

  /** `raw` with one paramset put in, missing levels being created. */
  function PutParamset(raw: Raw, i: string, c: string, k: string, parameters: Parameters): Raw {
    var channels := if i in raw then raw[i] else map[];
    var paramsets := if c in channels then channels[c] else map[];
    raw[i := channels[c := paramsets[k := parameters]]]
  }

  /** `raw` without the given channels of an interface. */
  function DropChannels(raw: Raw, i: string, gone: set<string>): Raw {
    if i in raw then raw[i := raw[i] - gone] else raw
  }

  /** An interface, a channel and a paramset key. */
  type Place = (string, string, string)

  function Places(raw: Raw): set<Place> {
    set i, c, k | i in raw && c in raw[i] && k in raw[i][c] :: (i, c, k)
  }

  class ParamsetDescriptionCache {
    var raw: Raw
    var index: ChannelIndex

    ghost predicate Valid()
      reads this
    {
      AllSplittable(raw) && Contains(index, raw)
    }

    constructor ()
      ensures Valid() && raw == map[] && index == map[]
    {
      raw, index := map[], map[];
    }

    /** `add` */
    method Add(i: string, c: string, k: string, parameters: Parameters)
      requires Valid() && Splittable(c)
      modifies this
      ensures Valid()
      ensures raw == PutParamset(old(raw), i, c, k, parameters)
      ensures forall d, p ::
        Indexed(index, d, p) == Indexed(old(index), d, p) + Share(c, parameters, d, p)
    {
      hide Splittable, DevicePart, ChannelNo;
      PutContains(raw, i, c, k, parameters);
      var channels := if i in raw then raw[i] else map[];
      var paramsets := if c in channels then channels[c] else map[];
      raw := raw[i := channels[c := paramsets[k := parameters]]];
      AddAddressParameter(c, parameters);
      forall i', c', k', p | HasParameter(raw, i', c', k', p) && Splittable(c')
        ensures ChannelNo(c') in Indexed(index, DevicePart(c'), p)
      {
        assert (i', c', k') == (i, c, k) || HasParameter(old(raw), i', c', k', p);
      }
    }

    /** `remove_device`: the index is left as it is. */
    method RemoveDevice(i: string, channels: seq<string>)
      requires Valid()
      modifies this
      ensures Valid()
      ensures index == old(index) && raw == DropChannels(old(raw), i, Named(channels))
      ensures raw.Keys == old(raw).Keys && forall k | k in raw && k != i :: raw[k] == old(raw)[k]
      ensures i in raw ==> forall c :: c in raw[i] <==> c in old(raw)[i] && c !in channels
      ensures i in raw ==> forall c <- raw[i] :: raw[i][c] == old(raw)[i][c]
    {
      hide Splittable, DevicePart, ChannelNo;
      if i in raw && raw[i] != map[] {
        var left := raw[i];
        for n := 0 to |channels|
          invariant left == raw[i] - Named(channels[..n])
        {
          assert Named(channels[..n + 1]) == Named(channels[..n]) + {channels[n]} by {
            assert channels[..n + 1] == channels[..n] + [channels[n]];
          }
          if channels[n] in left {
            left := left - {channels[n]};
          }
        }
        assert channels[..|channels|] == channels;
        raw := raw[i := left];
      } else {
        assert i in raw ==> raw[i] - Named(channels) == raw[i];
      }
      forall i', c', k', p | HasParameter(raw, i', c', k', p) ensures HasParameter(old(raw), i', c', k', p) {
      }
    }

    /** `_add_address_parameter` for one paramset */
    method AddAddressParameter(c: string, parameters: Parameters)
      requires Splittable(c)
      modifies `index
      ensures forall d, p ::
        Indexed(index, d, p) == Indexed(old(index), d, p) + Share(c, parameters, d, p)
    {
      hide Splittable, DevicePart, ChannelNo;
      var device, no := DevicePart(c), ChannelNo(c);
      var todo := parameters;
      while todo != {}
        invariant todo <= parameters
        invariant forall d, p ::
          Indexed(index, d, p) == Indexed(old(index), d, p) + Share(c, parameters - todo, d, p)
        decreases todo
      {
        var p :| p in todo;
        if (device, p) !in index {
          index := index[(device, p) := {}];
        }
        index := index[(device, p) := index[(device, p)] + {no}];
        todo := todo - {p};
      }
    }

    /** `load` into a fresh cache: afterwards the index is exactly what the paramsets say. */
    method Load(data: Raw)
      requires raw == map[] && index == map[] && AllSplittable(data)
      modifies this
      ensures Valid() && raw == data && NoMore(index, data)
    {
      hide Splittable, DevicePart, ChannelNo;
      raw := data;
      var todo := Places(data);
      ghost var done: set<Place> := {};
      while todo != {}
        invariant raw == data && todo !! done && todo + done == Places(data)
        invariant forall x, p :: x in done && p in data[x.0][x.1][x.2] ==>
          ChannelNo(x.1) in Indexed(index, DevicePart(x.1), p)
        invariant forall d, p, no :: no in Indexed(index, d, p) ==> Explained(data, d, p, no)
        decreases todo
      {
        var x :| x in todo;
        ghost var before := index;
        AddAddressParameter(x.1, data[x.0][x.1][x.2]);
        forall d, p, no | no in Indexed(index, d, p) ensures Explained(data, d, p, no) {
          if no !in Indexed(before, d, p) {
            assert HasParameter(data, x.0, x.1, x.2, p);
          }
        }
        todo, done := todo - {x}, done + {x};
      }
      forall i, c, k, p | HasParameter(data, i, c, k, p)
        ensures ChannelNo(c) in Indexed(index, DevicePart(c), p)
      {
        assert (i, c, k) in Places(data);
      }
    }

    /** `is_in_multiple_channels` */
    method IsInMultipleChannels(c: string, parameter: string) returns (multiple: bool)
      requires Splittable(c)
      ensures multiple <==> IsChannel(c) && |Indexed(index, DevicePart(c), parameter)| > 1
    {
      if !IsChannel(c) {
        return false;
      }
      var key := (DevicePart(c), parameter);
      return key in index && index[key] != {} && |index[key]| > 1;
    }
  }

  lemma PutContains(raw: Raw, i: string, c: string, k: string, parameters: Parameters)
    ensures forall i', c', k', p :: HasParameter(PutParamset(raw, i, c, k, parameters), i', c', k', p) <==>
      if (i', c', k') == (i, c, k) then p in parameters else HasParameter(raw, i', c', k', p)
  {
  }

  lemma AtMostOne<T>(s: set<T>, a: T, b: T)
    requires |s| <= 1 && a in s && b in s
    ensures a == b
  {
    assert |s - {a}| == |s| - 1;
  }

  /** When `is_in_multiple_channels` says no for a channel, all channels of its device that have the parameter have the
      same number. */
  lemma NotInMultipleChannels(index: ChannelIndex, raw: Raw, p: string, i: string, c: string, k: string, i': string,
                              c': string, k': string)
    requires Contains(index, raw) && Splittable(c) && Splittable(c')
    requires DevicePart(c) == DevicePart(c') && |Indexed(index, DevicePart(c), p)| <= 1
    requires HasParameter(raw, i, c, k, p) && HasParameter(raw, i', c', k', p)
    ensures ChannelNo(c) == ChannelNo(c')
  {
    hide Splittable, DevicePart, ChannelNo;
    AtMostOne(Indexed(index, DevicePart(c), p), ChannelNo(c), ChannelNo(c'));
  }

  /** After a fresh load the answer is exact: yes means there are two channel numbers with the parameter. */
  lemma InMultipleChannels(index: ChannelIndex, raw: Raw, d: string, p: string)
    requires Contains(index, raw) && NoMore(index, raw)
    ensures |Indexed(index, d, p)| > 1 <==> exists a, b :: a != b && Explained(raw, d, p, a) && Explained(raw, d, p, b)
  {
    hide Splittable, DevicePart, ChannelNo;
    var s := Indexed(index, d, p);
    forall no | Explained(raw, d, p, no) ensures no in s {
      var i, c, k :| HasParameter(raw, i, c, k, p) && Splittable(c) && DevicePart(c) == d && ChannelNo(c) == no;
    }
    if |s| > 1 {
      var a :| a in s;
      assert |s - {a}| > 0;
      var b :| b in s - {a};
      assert Explained(raw, d, p, a) && Explained(raw, d, p, b);
    } else {
      forall a, b | Explained(raw, d, p, a) && Explained(raw, d, p, b) ensures a == b {
        AtMostOne(s, a, b);
      }
    }
  }
}
