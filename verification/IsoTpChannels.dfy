/**
 The table of ISO-TP connections (IsoTpTransportImpl.cpp, IsoTpChannelImpl.cpp):
 channels that each pair a sender with a receiver, found by their identifiers.

 `accepted` says whether the CAN transport takes the one frame a call may hand over.
 */
module IsoTpChannels {
  import opened CanTypes
  import opened Slots
  import Codec = IsoTpCodec
  import S = IsoTpSender
  import R = IsoTpReceiver

  datatype Channel = Channel(
    rxId: nat, txId: nat, occupied: bool, receptionEnabled: bool, sender: S.Sender, receiver: R.Receiver)

  datatype Table = Table(channels: seq<Channel>, blockSize: byte, separationTime: byte)

  /* ---- One channel ---- */

  predicate ReceiverOk(r: R.Receiver) {
    (|r.buffer| <= r.expectedTotal || !r.receiving) && (r.nCr ==> r.receiving)
  }

  /** A channel not in use has nothing going on. */
  predicate ChannelOk(ch: Channel) {
    && S.Valid(ch.sender) && ReceiverOk(ch.receiver)
    && (!ch.occupied ==> ch.sender.phase == S.Idle && !ch.receiver.receiving)
  }

  function SenderAfter(s: S.Sender, e: S.Event, accepted: bool): S.Sender
    requires S.Valid(s) && S.CanHappen(s, e) && S.Legitimate(s, e)
  {
    S.ReactKeepsValid(s, e);
    S.Settle(S.React(s, e), accepted).s
  }

  function ReceiverAfter(r: R.Receiver, e: R.Event, accepted: bool): R.Receiver
    requires ReceiverOk(r) && R.CanHappen(r, e)
  {
    R.Settle(R.React(r, e), accepted).r
  }

  /** Flow control goes to the sender, anything else to the receiver if reception is enabled. */
  predicate Claims(ch: Channel, canId: nat, frame: Message) {
    ch.occupied && canId == ch.rxId && (Codec.DecodeFrameType(frame) == Codec.FlowControl || ch.receptionEnabled)
  }

  function Processed(ch: Channel, frame: Message, accepted: bool): Channel
    requires ChannelOk(ch)
  {
    if Codec.DecodeFrameType(frame) == Codec.FlowControl
    then ch.(sender := SenderAfter(ch.sender, S.FlowControlArrives(frame), accepted))
    else ch.(receiver := ReceiverAfter(ch.receiver, R.FrameArrives(frame), accepted))
  }

  function Released(ch: Channel): Channel {
    ch.(sender := S.Cleared(ch.sender), receiver := R.Cleared(ch.receiver), occupied := false, receptionEnabled := false)
  }

  function Configured(ch: Channel, rxId: nat, txId: nat, blockSize: byte, separationTime: byte): Channel {
    ch.(rxId := rxId, txId := txId, occupied := true, receptionEnabled := false,
        receiver := ch.receiver.(blockSize := blockSize, separationTime := separationTime))
  }

  function Sending(ch: Channel, pdu: seq<byte>, accepted: bool): Channel
    requires ChannelOk(ch)
  {
    ch.(sender := SenderAfter(ch.sender, S.Send(pdu), accepted))
  }

  /* ---- Finding channels ---- */

  predicate Uses(ch: Channel, id: nat) {
    ch.occupied && (ch.rxId == id || ch.txId == id)
  }

  /** The first channel that uses the identifier; the number of channels if none does. */
  function FindChannel(cs: seq<Channel>, id: nat): nat {
    FirstWhere(cs, (ch: Channel) => Uses(ch, id))
  }

  function FindFree(cs: seq<Channel>): nat {
    FirstWhere(cs, (ch: Channel) => !ch.occupied)
  }

  function FindClaim(cs: seq<Channel>, canId: nat, frame: Message): nat {
    FirstWhere(cs, (ch: Channel) => Claims(ch, canId, frame))
  }

  predicate Connects(ch: Channel, rxId: nat, txId: nat) {
    ch.occupied && ch.rxId == rxId && ch.txId == txId
  }

  function FindConnection(cs: seq<Channel>, rxId: nat, txId: nat): (i: nat)
    ensures i < |cs| ==> Connects(cs[i], rxId, txId)
  {
    var i := FindChannel(cs, rxId);
    ChannelFound(cs, rxId);
    if i < |cs| && cs[i].rxId == rxId && cs[i].txId == txId then i else |cs|
  }

  lemma ChannelFound(cs: seq<Channel>, id: nat)
    ensures FindChannel(cs, id) <= |cs|
    ensures FindChannel(cs, id) < |cs| ==> Uses(cs[FindChannel(cs, id)], id)
    ensures forall i :: 0 <= i < FindChannel(cs, id) ==> !Uses(cs[i], id)
  {
    FirstWhereFound(cs, (ch: Channel) => Uses(ch, id));
  }

  lemma FreeFound(cs: seq<Channel>)
    ensures FindFree(cs) <= |cs|
    ensures FindFree(cs) < |cs| ==> !cs[FindFree(cs)].occupied
  {
    FirstWhereFound(cs, (ch: Channel) => !ch.occupied);
  }

  lemma ClaimFound(cs: seq<Channel>, canId: nat, frame: Message)
    ensures FindClaim(cs, canId, frame) <= |cs|
    ensures FindClaim(cs, canId, frame) < |cs| ==> Claims(cs[FindClaim(cs, canId, frame)], canId, frame)
    ensures forall i :: 0 <= i < FindClaim(cs, canId, frame) ==> !Claims(cs[i], canId, frame)
  {
    FirstWhereFound(cs, (ch: Channel) => Claims(ch, canId, frame));
  }

  /* ---- The operations ---- */

  predicate Ok(t: Table) {
    forall i :: 0 <= i < |t.channels| ==> ChannelOk(t.channels[i])
  }

  function Put(t: Table, i: nat, ch: Channel): Table
    requires i < |t.channels|
  {
    t.(channels := t.channels[i := ch])
  }

  /** A new connection may not use an identifier that a channel already uses, in either direction. */
  predicate CanOpen(t: Table, rxId: nat, txId: nat) {
    && rxId != txId
    && FindChannel(t.channels, rxId) == |t.channels| && FindChannel(t.channels, txId) == |t.channels|
    && FindFree(t.channels) < |t.channels|
  }

  function Opened(t: Table, rxId: nat, txId: nat): Table
    requires CanOpen(t, rxId, txId)
  {
    var i := FindFree(t.channels);
    Put(t, i, Configured(t.channels[i], rxId, txId, t.blockSize, t.separationTime))
  }

  datatype Outcome = Outcome(t: Table, yes: bool)

  function Register(t: Table, dataId: nat, fcId: nat): Outcome {
    var i := FindConnection(t.channels, dataId, fcId);
    if i < |t.channels| then
      if t.channels[i].receptionEnabled then Outcome(t, false)
      else Outcome(Put(t, i, t.channels[i].(receptionEnabled := true)), true)
    else if CanOpen(t, dataId, fcId) then
      var j, grown := FindFree(t.channels), Opened(t, dataId, fcId);
      Outcome(Put(grown, j, grown.channels[j].(receptionEnabled := true)), true)
    else Outcome(t, false)
  }

  function Release(t: Table, dataId: nat): Table {
    var i := FindChannel(t.channels, dataId);
    if i < |t.channels| then Put(t, i, Released(t.channels[i])) else t
  }

  lemma ConfiguredIsOk(ch: Channel, rxId: nat, txId: nat, blockSize: byte, separationTime: byte)
    requires ChannelOk(ch)
    ensures ChannelOk(Configured(ch, rxId, txId, blockSize, separationTime))
  {
  }

  /** Only a new connection is released again when its sender does not take the PDU. */
  function SendPdu(t: Table, dataId: nat, fcId: nat, pdu: seq<byte>, accepted: bool): Outcome
    requires Ok(t)
  {
    var i := FindConnection(t.channels, fcId, dataId);
    if i < |t.channels| then
      Outcome(Put(t, i, Sending(t.channels[i], pdu, accepted)), S.Accepts(t.channels[i].sender, pdu))
    else if CanOpen(t, fcId, dataId) then
      var j, grown := FindFree(t.channels), Opened(t, fcId, dataId);
      ConfiguredIsOk(t.channels[j], fcId, dataId, t.blockSize, t.separationTime);
      if S.Accepts(grown.channels[j].sender, pdu) then Outcome(Put(grown, j, Sending(grown.channels[j], pdu, accepted)), true)
      else Outcome(Put(grown, j, Released(grown.channels[j])), false)
    else Outcome(t, false)
  }

  function ProcessFrame(t: Table, canId: nat, frame: Message, accepted: bool): Outcome
    requires Ok(t)
  {
    var i := FindClaim(t.channels, canId, frame);
    if i < |t.channels| then Outcome(Put(t, i, Processed(t.channels[i], frame, accepted)), true)
    else Outcome(t, false)
  }

  /* ---- Every operation keeps channels in order ---- */

  lemma SenderStaysValid(s: S.Sender, e: S.Event, accepted: bool)
    requires S.Valid(s) && S.CanHappen(s, e) && S.Legitimate(s, e)
    ensures S.Valid(SenderAfter(s, e, accepted))
  {
    S.ReactKeepsValid(s, e);
    var step := S.React(s, e);
    if step.frame.Some? && !accepted {
      RefusedStaysValid(step);
    }
  }

  lemma RefusedStaysValid(step: S.Step)
    requires S.Valid(step.s) && step.frame.Some?
    ensures S.Valid(S.OnFrameReport(step.s, step.frame.value.onDone, false).s)
  {
  }

  lemma IdleSenderStaysIdle(s: S.Sender, e: S.Event, accepted: bool)
    requires S.Valid(s) && S.CanHappen(s, e) && S.Legitimate(s, e) && s.phase == S.Idle && !e.Send?
    ensures SenderAfter(s, e, accepted).phase == S.Idle
  {
  }

  lemma FrameKeepsReceiver(r: R.Receiver, frame: Message)
    requires ReceiverOk(r)
    ensures ReceiverOk(R.OnFrame(r, frame).r)
  {
  }

  lemma ReceiverStaysOk(r: R.Receiver, e: R.Event, accepted: bool)
    requires ReceiverOk(r) && R.CanHappen(r, e)
    ensures ReceiverOk(ReceiverAfter(r, e, accepted))
    ensures !r.receiving && !e.FrameArrives? ==> !ReceiverAfter(r, e, accepted).receiving
  {
    if e.FrameArrives? {
      FrameKeepsReceiver(r, e.frame);
    }
  }
}
