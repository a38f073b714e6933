/** Addresses of devices ("VCU1") and of their channels ("VCU1:3"). */
module Addresses {
  import opened Wrappers
  import opened Numerals
  import opened Text

  /** The addresses of a list. */
  function Named(addresses: seq<string>): set<string> { set a | a in addresses }

  predicate IsChannel(address: string) { ':' in address }

  /** Addresses `get_split_channel_address` can split; for others it raises. */
  predicate Splittable(address: string) {
    IsChannel(address) ==>
      |Split(address, ':')| == 2 && (Split(address, ':')[1] == "None" || Parse(Split(address, ':')[1], 10).Some?)
  }

  function DevicePart(address: string): string
    requires Splittable(address)
  {
    if IsChannel(address) then Split(address, ':')[0] else address
  }

  function ChannelNo(address: string): Option<nat>
    requires Splittable(address)
  {
    if IsChannel(address) then Parse(Split(address, ':')[1], 10) else None
  }

  /** `get_channel_address` */
  function ChannelAddress(device: string, no: Option<nat>): string {
    match no case None => device case Some(n) => device + ":" + Print(n, 10)
  }

  /** Splitting undoes joining. */
  lemma AddressRoundTrip(device: string, no: Option<nat>)
    requires ':' !in device
    ensures var address := ChannelAddress(device, no);
      Splittable(address) && DevicePart(address) == device && ChannelNo(address) == no
  {
    hide Print, Parse, Split;
    if no.Some? {
      ParsePrint(no.value, 10);
      SplitTwo(device, ':', Print(no.value, 10));
      assert device + ":" + Print(no.value, 10) == device + [':'] + Print(no.value, 10);
    }
  }

  /** The address is that of a channel: a device, a colon, and what stands for the number. */
  predicate IsChannelOf(address: string, device: string, no: string) {
    ':' !in device && ':' !in no && address == device + ":" + no
  }

  /** A numeral, or "None" for no number. */
  predicate IsNumber(no: string) { no == "None" || Parse(no, 10).Some? }

  lemma ChannelParts(address: string, device: string, no: string)
    requires IsChannelOf(address, device, no)
    ensures IsChannel(address) && Split(address, ':') == [device, no]
  {
    hide Split;
    SplitTwo(device, ':', no);
    assert address == device + [':'] + no && address[|device|] == ':';
  }

  lemma PartsOfChannel(address: string)
    requires |Split(address, ':')| == 2
    ensures IsChannelOf(address, Split(address, ':')[0], Split(address, ':')[1])
  {
    hide Split;
    var parts := Split(address, ':');
    JoinSplit(address, ':');
    JoinTwo(parts[0], ':', parts[1]);
    assert parts == [parts[0]] + [parts[1]];
    assert parts[0] in parts && parts[1] in parts;
  }

  /** The addresses that can be split: those without a colon, and those of channels with a number or none. */
  lemma SplittableIff(address: string)
    ensures Splittable(address) <==>
      !IsChannel(address) || exists device, no :: IsChannelOf(address, device, no) && IsNumber(no)
    ensures !IsChannel(address) <==> forall i :: 0 <= i < |address| ==> address[i] != ':'
  {
    hide Split, Parse, IsChannelOf;
    if IsChannel(address) {
      var parts := Split(address, ':');
      if |parts| == 2 {
        PartsOfChannel(address);
        assert Splittable(address) ==> IsChannelOf(address, parts[0], parts[1]) && IsNumber(parts[1]);
      }
      forall device, no | IsChannelOf(address, device, no) ensures parts == [device, no] {
        ChannelParts(address, device, no);
      }
    }
  }

  /** "None" counts as no number. */
  lemma NoNumber(device: string)
    requires ':' !in device
    ensures var address := device + ":None";
      Splittable(address) && DevicePart(address) == device && ChannelNo(address) == None
  {
    hide Split, Parse;
    ChannelParts(device + ":None", device, "None");
    ParseIff("None", 10);
    assert !IsDigit("None"[0], 10) && "None"[0] in "None";
  }
}
