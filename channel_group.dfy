/** `ChannelGroup` (Touch/ChannelGroup.hpp): an indexed list of Script
    addresses, one per channel. An address is the byte string it points to;
    a null address pointer is `None`. `uint_t` is taken as 32 bits, so `~0`
    is 0xFFFF_FFFF. */
module ChannelGroup {
  import opened Types

  type Address = seq<byte>

  const NoChannel: int := 0xFFFF_FFFF

  /** The bound test of `GetChannelAddress` as written: it refuses only
      channels above the size, so the channel equal to the size passes. */
  function GetChannelGuardAsWritten(channel: nat, size: nat): (r: bool)
    ensures r <==> channel < size || channel == size
  {
    !(channel > size)
  }

  /** Whatever the group holds, the guard as written lets the channel equal
      to the size through, one past the last entry, where the corrected
      lookup reports no channel. */
  lemma GetChannelGuardAdmitsEnd(g: ChannelGroup)
    ensures GetChannelGuardAsWritten(|g.channels|, |g.channels|)
    ensures g.GetChannelAddress(|g.channels|).None?
  {
  }

  class ChannelGroup {
    var channels: seq<Address>

    constructor ()
      ensures channels == []
    {
      channels := [];
    }

    /** The address of `channel`, or null when there is no such channel. */
    function GetChannelAddress(channel: nat): (address: Option<Address>)
      reads this
      ensures address.Some? <==> channel < |channels|
      ensures address.Some? ==> address.value == channels[channel]
    {
      if channel >= |channels| then None else Some(channels[channel])
    }

    /** Overwrites an existing channel, appends when `channel` is the size,
        and ignores a null address or a channel beyond the size. */
    method SetChannelAddress(channel: nat, address: Option<Address>)
      modifies this
      ensures address.None? || channel > |old(channels)| ==> channels == old(channels)
      ensures address.Some? && channel == |old(channels)| ==> channels == old(channels) + [address.value]
      ensures address.Some? && channel < |old(channels)| ==> channels == old(channels)[channel := address.value]
      ensures address.Some? && channel <= |old(channels)| ==> GetChannelAddress(channel) == address
    {
      if address.None? {
        return;
      }
      var size := |channels|;
      if channel > size {
        return;
      }
      if channel == size {
        channels := channels + [address.value];
        return;
      }
      channels := channels[channel := address.value];
    }

    /** Appends a non-null address and returns its index, the new last one;
        a null address gives `~0` and adds nothing. */
    method AddChannel(address: Option<Address>) returns (index: int)
      modifies this
      ensures address.None? ==> index == NoChannel && channels == old(channels)
      ensures address.Some? ==> channels == old(channels) + [address.value] && index == |channels| - 1
      ensures address.Some? ==> GetChannelAddress(index) == address
    {
      if address.None? {
        return NoChannel;
      }
      channels := channels + [address.value];
      return |channels| - 1;
    }

    /** Erases exactly the channel at `index`, keeping the others in order,
        and reports whether it existed. */
    method RemoveChannel(index: nat) returns (removed: bool)
      modifies this
      ensures removed <==> index < |old(channels)|
      ensures !removed ==> channels == old(channels)
      ensures removed ==> channels == old(channels)[..index] + old(channels)[index + 1..]
    {
      if index >= |channels| {
        return false;
      }
      channels := channels[..index] + channels[index + 1..];
      return true;
    }
  }
}
