/** The channel table as objects: each operation finds a channel and changes at most that one. */
module IsoTpTransport {
  import opened CanTypes
  import opened IsoTpChannels
  import Codec = IsoTpCodec
  import S = IsoTpSender
  import R = IsoTpReceiver

  class IsoTpChannel {
    var rxId: nat
    var txId: nat
    var occupied: bool
    var receptionEnabled: bool
    const sender: S.IsoTpSender
    const receiver: R.IsoTpReceiver

    constructor (sender: S.IsoTpSender, receiver: R.IsoTpReceiver)
      ensures this.sender == sender && this.receiver == receiver
      ensures Abs() == Channel(0, 0, false, false, sender.Abs(), receiver.Abs())
    {
      this.sender, this.receiver := sender, receiver;
      rxId, txId, occupied, receptionEnabled := 0, 0, false, false;
    }

    ghost function Abs(): Channel
      reads this, sender, receiver
    {
      Channel(rxId, txId, occupied, receptionEnabled, sender.Abs(), receiver.Abs())
    }

    method Configure(newRxId: nat, newTxId: nat, blockSize: byte, separationTime: byte)
      modifies this, receiver
      ensures Abs() == Configured(old(Abs()), newRxId, newTxId, blockSize, separationTime)
    {
      rxId, txId, occupied, receptionEnabled := newRxId, newTxId, true, false;
      receiver.SetFlowControlParameters(blockSize, separationTime);
    }

    method EnableReception()
      modifies this`receptionEnabled
      ensures Abs() == old(Abs()).(receptionEnabled := true)
    {
      receptionEnabled := true;
    }

    method Release()
      requires ChannelOk(Abs())
      modifies this, sender, receiver
      ensures Abs() == Released(old(Abs()))
    {
      sender.ResetTransfer();
      receiver.ResetReception();
      occupied, receptionEnabled := false, false;
    }

    method ProcessFrame(canId: nat, frame: Message, accepted: bool) returns (claimed: bool)
      requires ChannelOk(Abs()) && occupied
      modifies this, sender, receiver
      ensures claimed == Claims(old(Abs()), canId, frame)
      ensures Abs() == if claimed then Processed(old(Abs()), frame, accepted) else old(Abs())
    {
      if canId != rxId {
        return false;
      }
      if Codec.DecodeFrameType(frame) == Codec.FlowControl {
        sender.ProcessFlowControl(frame, accepted);
        return true;
      }
      if !receptionEnabled {
        return false;
      }
      receiver.ProcessFrame(frame, accepted);
      return true;
    }

    method SendPdu(pdu: seq<byte>, accepted: bool) returns (taken: bool)
      requires ChannelOk(Abs())
      modifies sender
      ensures taken == S.Accepts(old(sender.Abs()), pdu)
      ensures Abs() == Sending(old(Abs()), pdu, accepted)
    {
      taken := sender.SendPdu(pdu, accepted);
    }
  }

  ghost function Footprint(cs: seq<IsoTpChannel>): set<object> {
    (set c: IsoTpChannel | c in cs :: c) + (set c: IsoTpChannel | c in cs :: c.sender) + (set c: IsoTpChannel | c in cs :: c.receiver)
  }

  lemma RefusedSendIsNoChange(ch: Channel, pdu: seq<byte>, accepted: bool)
    requires ChannelOk(ch) && !S.Accepts(ch.sender, pdu)
    ensures Sending(ch, pdu, accepted) == ch
  {
  }

  class IsoTpTransport {
    const channels: seq<IsoTpChannel>
    const blockSize: byte
    const separationTime: byte

    constructor (channels: seq<IsoTpChannel>, blockSize: byte, separationTime: byte)
      ensures this.channels == channels && this.blockSize == blockSize && this.separationTime == separationTime
    {
      this.channels, this.blockSize, this.separationTime := channels, blockSize, separationTime;
    }

    /** No two channels share an object. */
    ghost predicate Separate() {
      forall i, j :: 0 <= i < j < |channels| ==>
        channels[i] != channels[j] && channels[i].sender != channels[j].sender && channels[i].receiver != channels[j].receiver
    }

    ghost function Channels(): (cs: seq<Channel>)
      reads Footprint(channels)
      ensures |cs| == |channels| && forall i :: 0 <= i < |cs| ==> cs[i] == channels[i].Abs()
    {
      seq(|channels|, i requires 0 <= i < |channels| reads Footprint(channels) =>
        InFootprint(i);
        channels[i].Abs())
    }

    lemma InFootprint(i: nat)
      requires i < |channels|
      ensures channels[i] in Footprint(channels) && channels[i].sender in Footprint(channels) && channels[i].receiver in Footprint(channels)
    {
      assert channels[i] in channels;
    }

    ghost function Abs(): Table
      reads Footprint(channels)
    {
      Table(Channels(), blockSize, separationTime)
    }

    method FindChannel(canId: nat) returns (i: nat)
      ensures i == IsoTpChannels.FindChannel(old(Channels()), canId)
      ensures Abs() == old(Abs())
    {
      i := 0;
      while i < |channels| && !(channels[i].occupied && (channels[i].rxId == canId || channels[i].txId == canId))
        invariant i <= |channels|
        invariant IsoTpChannels.FindChannel(Channels(), canId) == i + IsoTpChannels.FindChannel(Channels()[i..], canId)
      {
        i := i + 1;
      }
    }

    method FindConnection(rxId: nat, txId: nat) returns (i: nat)
      ensures i == IsoTpChannels.FindConnection(old(Channels()), rxId, txId)
      ensures Abs() == old(Abs())
    {
      i := FindChannel(rxId);
      ChannelFound(Channels(), rxId);
      if i < |channels| && channels[i].rxId == rxId && channels[i].txId == txId {
        return;
      }
      return |channels|;
    }

    method AllocateFreeChannel() returns (i: nat)
      ensures i == FindFree(old(Channels()))
      ensures Abs() == old(Abs())
    {
      i := 0;
      while i < |channels| && channels[i].occupied
        invariant i <= |channels|
        invariant FindFree(Channels()) == i + FindFree(Channels()[i..])
      {
        i := i + 1;
      }
    }

    /** Changing one channel changes that entry of the table. */
    twostate lemma OneChanged(i: nat)
      requires i < |channels|
      requires forall j :: 0 <= j < |channels| && j != i ==> channels[j].Abs() == old(channels[j].Abs())
      ensures Abs() == Put(old(Abs()), i, channels[i].Abs())
    {
    }

    /* One call on one channel, seen from the table. */

    method ConfigureAt(i: nat, rxId: nat, txId: nat)
      requires Separate() && i < |channels|
      modifies Footprint(channels)
      ensures Abs() == Put(old(Abs()), i, Configured(old(Channels())[i], rxId, txId, blockSize, separationTime))
    {
      InFootprint(i);
      channels[i].Configure(rxId, txId, blockSize, separationTime);
      OneChanged(i);
    }

    method EnableAt(i: nat)
      requires Separate() && i < |channels|
      modifies Footprint(channels)
      ensures Abs() == Put(old(Abs()), i, old(Channels())[i].(receptionEnabled := true))
    {
      InFootprint(i);
      channels[i].EnableReception();
      OneChanged(i);
    }

    method ReleaseAt(i: nat)
      requires Separate() && i < |channels| && ChannelOk(Channels()[i])
      modifies Footprint(channels)
      ensures Abs() == Put(old(Abs()), i, Released(old(Channels())[i]))
    {
      InFootprint(i);
      channels[i].Release();
      OneChanged(i);
    }

    method SendAt(i: nat, pdu: seq<byte>, accepted: bool) returns (taken: bool)
      requires Separate() && i < |channels| && ChannelOk(Channels()[i])
      modifies Footprint(channels)
      ensures taken == S.Accepts(old(Channels())[i].sender, pdu)
      ensures Abs() == Put(old(Abs()), i, Sending(old(Channels())[i], pdu, accepted))
    {
      InFootprint(i);
      taken := channels[i].SendPdu(pdu, accepted);
      OneChanged(i);
    }

    method ProcessAt(i: nat, canId: nat, frame: Message, accepted: bool) returns (claimed: bool)
      requires Separate() && i < |channels| && ChannelOk(Channels()[i])
      modifies Footprint(channels)
      ensures claimed == Claims(old(Channels())[i], canId, frame)
      ensures Abs() == if claimed then Put(old(Abs()), i, Processed(old(Channels())[i], frame, accepted)) else old(Abs())
    {
      if !channels[i].occupied {
        return false;
      }
      InFootprint(i);
      claimed := channels[i].ProcessFrame(canId, frame, accepted);
      OneChanged(i);
    }

    /* The table's own operations. */

    method InUse(id: nat) returns (inUse: bool)
      ensures inUse <==> IsoTpChannels.FindChannel(old(Channels()), id) != |channels|
      ensures Abs() == old(Abs())
    {
      var i := FindChannel(id);
      ChannelFound(Channels(), id);
      return i < |channels|;
    }

    method OpenConnection(rxId: nat, txId: nat) returns (i: nat)
      requires Separate()
      modifies Footprint(channels)
      ensures i < |channels| <==> CanOpen(old(Abs()), rxId, txId)
      ensures i < |channels| ==> i == FindFree(old(Channels())) && Abs() == Opened(old(Abs()), rxId, txId)
      ensures i >= |channels| ==> Abs() == old(Abs())
    {
      if rxId == txId {
        return |channels|;
      }
      var rxInUse := InUse(rxId);
      var txInUse := InUse(txId);
      if rxInUse || txInUse {
        return |channels|;
      }
      i := AllocateFreeChannel();
      if i < |channels| {
        ConfigureAt(i, rxId, txId);
      }
    }

    method RegisterReceiveChannel(dataId: nat, fcId: nat) returns (registered: bool)
      requires Separate()
      modifies Footprint(channels)
      ensures Outcome(Abs(), registered) == Register(old(Abs()), dataId, fcId)
    {
      var i := FindConnection(dataId, fcId);
      if i >= |channels| {
        i := OpenConnection(dataId, fcId);
      } else if channels[i].receptionEnabled {
        return false;
      }
      if i >= |channels| {
        return false;
      }
      EnableAt(i);
      return true;
    }

    method ReleaseChannel(dataId: nat)
      requires Separate() && Ok(Abs())
      modifies Footprint(channels)
      ensures Abs() == Release(old(Abs()), dataId)
    {
      ghost var before := Abs();
      var i := FindChannel(dataId);
      if i < |channels| {
        assert ChannelOk(before.channels[i]);
        ReleaseAt(i);
        assert Abs() == Put(before, i, Released(before.channels[i]));
      }
    }

    method SendPdu(dataId: nat, fcId: nat, pdu: seq<byte>, accepted: bool) returns (taken: bool)
      requires Separate() && Ok(Abs())
      modifies Footprint(channels)
      ensures Outcome(Abs(), taken) == IsoTpChannels.SendPdu(old(Abs()), dataId, fcId, pdu, accepted)
    {
      var i := FindConnection(fcId, dataId);
      if i < |channels| {
        taken := SendAt(i, pdu, accepted);
        return;
      }
      i := OpenConnection(fcId, dataId);
      if i >= |channels| {
        return false;
      }
      ConfiguredIsOk(old(Channels())[i], fcId, dataId, blockSize, separationTime);
      taken := SendOrRelease(i, pdu, accepted);
    }

    method SendOrRelease(i: nat, pdu: seq<byte>, accepted: bool) returns (taken: bool)
      requires Separate() && i < |channels| && ChannelOk(Channels()[i])
      modifies Footprint(channels)
      ensures taken == S.Accepts(old(Channels())[i].sender, pdu)
      ensures Abs() == Put(old(Abs()), i, if taken then Sending(old(Channels())[i], pdu, accepted) else Released(old(Channels())[i]))
    {
      if !S.Accepts(Channels()[i].sender, pdu) { RefusedSendIsNoChange(Channels()[i], pdu, accepted); }
      taken := SendAt(i, pdu, accepted);
      if !taken {
        ReleaseAt(i);
      }
    }

    method ProcessFrame(canId: nat, frame: Message, accepted: bool) returns (claimed: bool)
      requires Separate() && Ok(Abs())
      modifies Footprint(channels)
      ensures Outcome(Abs(), claimed) == IsoTpChannels.ProcessFrame(old(Abs()), canId, frame, accepted)
    {
      var i := 0;
      while i < |channels|
        invariant 0 <= i <= |channels| && Abs() == old(Abs())
        invariant FindClaim(Channels(), canId, frame) == i + FindClaim(Channels()[i..], canId, frame)
      {
        claimed := ProcessAt(i, canId, frame, accepted);
        if claimed {
          return;
        }
        i := i + 1;
      }
      return false;
    }
  }
}
