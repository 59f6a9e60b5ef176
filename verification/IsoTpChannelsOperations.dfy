/**
 What each operation on the table of connections does, told from the channels
 in use alone: which is found, what changes in it, and that nothing else does.
 */
module IsoTpChannelsOperations {
  import opened CanTypes
  import opened IsoTpChannels
  import opened IsoTpChannelsRuns
  import Codec = IsoTpCodec
  import Slots
  import S = IsoTpSender
  import R = IsoTpReceiver

  /** Somebody uses the identifier, in either direction. */
  predicate InUse(cs: seq<Channel>, id: nat) {
    exists i :: 0 <= i < |cs| && cs[i].occupied && (cs[i].rxId == id || cs[i].txId == id)
  }

  predicate IsConnected(cs: seq<Channel>, rxId: nat, txId: nat) {
    exists i :: 0 <= i < |cs| && cs[i].occupied && cs[i].rxId == rxId && cs[i].txId == txId
  }

  /** Two free identifiers and a free channel. */
  predicate RoomFor(cs: seq<Channel>, rxId: nat, txId: nat) {
    && rxId != txId && !InUse(cs, rxId) && !InUse(cs, txId)
    && exists i :: 0 <= i < |cs| && !cs[i].occupied
  }

  /** At most channel `i` differs. */
  predicate OnlyChanged(before: seq<Channel>, after: seq<Channel>, i: nat) {
    |before| == |after| && forall j :: 0 <= j < |before| && j != i ==> after[j] == before[j]
  }

  /** `ch` is a connection just made out of the free channel `was`, nothing of its machines touched but the parameters. */
  predicate Fresh(was: Channel, ch: Channel, rxId: nat, txId: nat, blockSize: byte, separationTime: byte) {
    && !was.occupied && ch.occupied && ch.rxId == rxId && ch.txId == txId
    && ch.sender == was.sender
    && ch.receiver == was.receiver.(blockSize := blockSize, separationTime := separationTime)
  }

  lemma FoundIsUsed(cs: seq<Channel>, id: nat)
    ensures FindChannel(cs, id) <= |cs| && (FindChannel(cs, id) < |cs| <==> InUse(cs, id))
  {
    ChannelFound(cs, id);
    if i :| 0 <= i < |cs| && cs[i].occupied && (cs[i].rxId == id || cs[i].txId == id) {
      assert Uses(cs[i], id);
    }
  }

  lemma FirstFree(cs: seq<Channel>)
    ensures FindFree(cs) <= |cs|
    ensures FindFree(cs) < |cs| <==> exists i :: 0 <= i < |cs| && !cs[i].occupied
    ensures FindFree(cs) < |cs| ==> !cs[FindFree(cs)].occupied
  {
    FreeFound(cs);
    Slots.FirstWhereFound(cs, (ch: Channel) => !ch.occupied);
  }

  lemma OpensExactly(t: Table, rxId: nat, txId: nat)
    ensures CanOpen(t, rxId, txId) <==> RoomFor(t.channels, rxId, txId)
  {
    FoundIsUsed(t.channels, rxId);
    FoundIsUsed(t.channels, txId);
    FirstFree(t.channels);
  }

  lemma ConnectionFound(t: Table, rxId: nat, txId: nat)
    requires Inv(t)
    ensures FindConnection(t.channels, rxId, txId) < |t.channels| <==> IsConnected(t.channels, rxId, txId)
  {
    if i :| 0 <= i < |t.channels| && t.channels[i].occupied && t.channels[i].rxId == rxId && t.channels[i].txId == txId {
      ConnectionsAreFound(t, rxId, txId, i);
    }
  }

  /** A pair is registered for receiving exactly if it is connected and not receiving yet, or can be connected. Then
      its channel receives, under the parameters of the table if it is new; nothing else changes. */
  lemma RegisterDoes(t: Table, dataId: nat, fcId: nat) returns (i: nat)
    requires Inv(t)
    ensures var cs, outcome := t.channels, Register(t, dataId, fcId);
            var after := outcome.t.channels;
            && outcome.t == t.(channels := after)
            && (outcome.yes <==> if IsConnected(cs, dataId, fcId) then i < |cs| && !cs[i].receptionEnabled else RoomFor(cs, dataId, fcId))
            && (IsConnected(cs, dataId, fcId) ==> i < |cs| && Connects(cs[i], dataId, fcId))
            && (!outcome.yes ==> after == cs)
            && (outcome.yes ==>
                  && i < |cs| && OnlyChanged(cs, after, i) && after[i].receptionEnabled
                  && if IsConnected(cs, dataId, fcId) then after[i] == cs[i].(receptionEnabled := true)
                     else Fresh(cs[i], after[i], dataId, fcId, t.blockSize, t.separationTime))
  {
    var found := FindConnection(t.channels, dataId, fcId);
    ConnectionFound(t, dataId, fcId);
    OpensExactly(t, dataId, fcId);
    FirstFree(t.channels);
    i := if found < |t.channels| then found else FindFree(t.channels);
  }

  /** What sending does to a sender: it takes the PDU, and fails at once if its first frame is refused. */
  ghost predicate Started(before: S.Sender, after: S.Sender, pdu: seq<byte>, accepted: bool)
  {
    && before.phase == S.Idle && 1 <= |pdu| <= Codec.FF_MAX_PDU && |pdu| <= before.capacity
    && after.pdu == pdu && after.capacity == before.capacity
    && (accepted ==> after.transfer == Next8(before.transfer)
                     && after.phase == if |pdu| <= Codec.SF_MAX_PAYLOAD then S.SendingSf else S.WaitingForFc)
    && (!accepted ==> after.phase == S.Idle && after.transfer == Next8(Next8(before.transfer)))
  }

  lemma SendingStarts(ch: Channel, pdu: seq<byte>, accepted: bool)
    requires ChannelOk(ch)
    ensures Sending(ch, pdu, accepted) == ch.(sender := Sending(ch, pdu, accepted).sender)
    ensures if S.Accepts(ch.sender, pdu) then Started(ch.sender, Sending(ch, pdu, accepted).sender, pdu, accepted)
            else Sending(ch, pdu, accepted) == ch
  {
  }

  /** A send that is taken starts the transfer on the connection of its pair, an old one or a new one that does not
      receive; nothing else changes. */
  lemma SendDoes(t: Table, dataId: nat, fcId: nat, pdu: seq<byte>, accepted: bool) returns (i: nat)
    requires Inv(t) && SendPdu(t, dataId, fcId, pdu, accepted).yes
    ensures var cs, after := t.channels, SendPdu(t, dataId, fcId, pdu, accepted).t.channels;
            && i < |cs| && OnlyChanged(cs, after, i) && Connects(after[i], fcId, dataId)
            && Started(cs[i].sender, after[i].sender, pdu, accepted)
            && if IsConnected(cs, fcId, dataId) then after[i] == cs[i].(sender := after[i].sender)
               else
                 && RoomFor(cs, fcId, dataId) && !after[i].receptionEnabled
                 && Fresh(cs[i], after[i].(sender := cs[i].sender), fcId, dataId, t.blockSize, t.separationTime)
  {
    var found := FindConnection(t.channels, fcId, dataId);
    ConnectionFound(t, fcId, dataId);
    OpensExactly(t, fcId, dataId);
    FirstFree(t.channels);
    i := if found < |t.channels| then found else FindFree(t.channels);
    if found < |t.channels| {
      SendingStarts(t.channels[i], pdu, accepted);
    } else {
      ConfiguredIsOk(t.channels[i], fcId, dataId, t.blockSize, t.separationTime);
      SendingStarts(Configured(t.channels[i], fcId, dataId, t.blockSize, t.separationTime), pdu, accepted);
    }
  }

  /** Releasing an identifier leaves nobody using it: its channel is free, with nothing going on and nothing armed; nothing
      else changes. */
  lemma ReleaseDoes(t: Table, dataId: nat)
    requires Inv(t)
    ensures var cs, after := t.channels, Release(t, dataId).channels;
            && Release(t, dataId) == t.(channels := after) && |after| == |cs|
            && !InUse(after, dataId)
            && (forall j :: 0 <= j < |cs| ==>
                  if cs[j].occupied && (cs[j].rxId == dataId || cs[j].txId == dataId) then
                    && !after[j].occupied && !after[j].receptionEnabled && after[j].sender.phase == S.Idle && S.ArmedTimers(after[j].sender) == 0
                    && !after[j].receiver.receiving && !after[j].receiver.nCr
                  else after[j] == cs[j])
  {
    ChannelFound(t.channels, dataId);
    forall j | 0 <= j < |t.channels| && Uses(t.channels[j], dataId)
      ensures FindChannel(t.channels, dataId) == j
    {
      IdentifierIsFound(t, dataId, j);
    }
  }

  /** A frame is processed exactly if its identifier is the receive identifier of a connection, and it is a flow control or
      the connection receives. A flow control reaches the sender of that connection, anything else its receiver. */
  lemma FrameDoes(t: Table, canId: nat, frame: Message, accepted: bool, i: nat)
    requires Inv(t) && i < |t.channels| && t.channels[i].occupied && t.channels[i].rxId == canId
    ensures var ch, outcome, isFlowControl := t.channels[i], ProcessFrame(t, canId, frame, accepted), Codec.DecodeFrameType(frame) == Codec.FlowControl;
            && outcome.yes == (isFlowControl || ch.receptionEnabled)
            && |outcome.t.channels| == |t.channels| && outcome.t == t.(channels := outcome.t.channels)
            && OnlyChanged(t.channels, outcome.t.channels, i)
            && outcome.t.channels[i] ==
                 if isFlowControl then ch.(sender := S.Settle(S.OnFlowControl(ch.sender, frame), accepted).s)
                 else if ch.receptionEnabled then ch.(receiver := R.Settle(R.OnFrame(ch.receiver, frame), accepted).r)
                 else ch
  {
    if Claims(t.channels[i], canId, frame) {
      OneChannelClaims(t, canId, frame, i);
    } else {
      NoOtherClaims(t, canId, frame, i);
    }
  }

  lemma NoOtherClaims(t: Table, canId: nat, frame: Message, i: nat)
    requires Inv(t) && i < |t.channels| && Uses(t.channels[i], canId) && !Claims(t.channels[i], canId, frame)
    ensures FindClaim(t.channels, canId, frame) == |t.channels|
  {
    ClaimFound(t.channels, canId, frame);
    forall j | 0 <= j < |t.channels|
      ensures !Claims(t.channels[j], canId, frame)
    {
      if j != i { assert Apart(t.channels[j], t.channels[i]); }
    }
  }

  /** A frame with any other identifier is left alone. */
  lemma StrangersAreIgnored(t: Table, canId: nat, frame: Message, accepted: bool)
    requires Inv(t) && forall i :: 0 <= i < |t.channels| && t.channels[i].occupied ==> t.channels[i].rxId != canId
    ensures ProcessFrame(t, canId, frame, accepted) == Outcome(t, false)
  {
    ClaimFound(t.channels, canId, frame);
  }

  /* ---- Over whole runs ---- */

  /** Whether the pair is registered for receiving: since its registration neither identifier was released. */
  function Registered(t: Table, es: seq<Event>, rxId: nat, txId: nat): bool
    requires Inv(t) && After(t, es).Some?
    decreases |es|
  {
    if es == [] then false
    else
      var before, e := es[..|es| - 1], es[|es| - 1];
      match e
      case RegisterReceive(dataId, fcId) =>
        Registered(t, before, rxId, txId) || (dataId == rxId && fcId == txId && Register(After(t, before).value, dataId, fcId).yes)
      case ReleaseId(id) => Registered(t, before, rxId, txId) && id != rxId && id != txId
      case _ => Registered(t, before, rxId, txId)
  }

  /** Some connection of this pair receives. */
  predicate Receives(cs: seq<Channel>, rxId: nat, txId: nat) {
    exists i :: 0 <= i < |cs| && Connects(cs[i], rxId, txId) && cs[i].receptionEnabled
  }

  /** Changing one channel changes what is received only for the pairs it connected or connects. */
  lemma ReceivesElsewhere(before: seq<Channel>, after: seq<Channel>, i: nat, rxId: nat, txId: nat)
    requires i < |before| && OnlyChanged(before, after, i)
    requires (Connects(before[i], rxId, txId) && before[i].receptionEnabled) <==> (Connects(after[i], rxId, txId) && after[i].receptionEnabled)
    ensures Receives(before, rxId, txId) <==> Receives(after, rxId, txId)
  {
    if j :| 0 <= j < |before| && Connects(before[j], rxId, txId) && before[j].receptionEnabled {
      assert Connects(after[j], rxId, txId) && after[j].receptionEnabled;
    }
    if j :| 0 <= j < |after| && Connects(after[j], rxId, txId) && after[j].receptionEnabled {
      assert Connects(before[j], rxId, txId) && before[j].receptionEnabled;
    }
  }

  lemma RegisterReceives(t: Table, dataId: nat, fcId: nat, rxId: nat, txId: nat)
    requires Inv(t)
    ensures Receives(Register(t, dataId, fcId).t.channels, rxId, txId) <==>
              Receives(t.channels, rxId, txId) || (dataId == rxId && fcId == txId && Register(t, dataId, fcId).yes)
  {
    var i := RegisterDoes(t, dataId, fcId);
    var after := Register(t, dataId, fcId).t.channels;
    if Register(t, dataId, fcId).yes {
      if dataId == rxId && fcId == txId {
        assert Connects(after[i], rxId, txId);
      } else {
        ReceivesElsewhere(t.channels, after, i, rxId, txId);
      }
    }
  }

  lemma SendReceives(t: Table, e: Event, rxId: nat, txId: nat)
    requires Inv(t) && e.Send?
    ensures Receives(Next(t, e).t.channels, rxId, txId) <==> Receives(t.channels, rxId, txId)
  {
    if SendPdu(t, e.dataId, e.fcId, e.pdu, e.accepted).yes {
      var i := SendDoes(t, e.dataId, e.fcId, e.pdu, e.accepted);
      ReceivesElsewhere(t.channels, Next(t, e).t.channels, i, rxId, txId);
    } else {
      RefusedSendLeavesConnections(t, e.dataId, e.fcId, e.pdu, e.accepted);
      SameReceives(t.channels, Next(t, e).t.channels, rxId, txId);
    }
  }

  lemma SameReceives(before: seq<Channel>, after: seq<Channel>, rxId: nat, txId: nat)
    requires SameConnections(before, after)
    ensures Receives(before, rxId, txId) <==> Receives(after, rxId, txId)
  {
    if j :| 0 <= j < |before| && Connects(before[j], rxId, txId) && before[j].receptionEnabled {
      assert Connects(after[j], rxId, txId) && after[j].receptionEnabled;
    }
    if j :| 0 <= j < |after| && Connects(after[j], rxId, txId) && after[j].receptionEnabled {
      assert Connects(before[j], rxId, txId) && before[j].receptionEnabled;
    }
  }

  lemma ReleaseReceives(t: Table, id: nat, rxId: nat, txId: nat)
    requires Inv(t)
    ensures Receives(Release(t, id).channels, rxId, txId) <==> Receives(t.channels, rxId, txId) && id != rxId && id != txId
  {
    var cs, after := t.channels, Release(t, id).channels;
    ReleaseDoes(t, id);
    if j :| 0 <= j < |cs| && Connects(cs[j], rxId, txId) && cs[j].receptionEnabled {
      assert id != rxId && id != txId ==> after[j] == cs[j];
    }
    if j :| 0 <= j < |after| && Connects(after[j], rxId, txId) && after[j].receptionEnabled {
      assert after[j] == cs[j];
    }
  }

  lemma InputReceives(t: Table, e: Event, rxId: nat, txId: nat)
    requires Inv(t) && Enabled(t, e) && (e.Frame? || e.SenderInput? || e.ReceiverInput?)
    ensures Receives(Next(t, e).t.channels, rxId, txId) <==> Receives(t.channels, rxId, txId)
  {
    var i := if e.Frame? then FindClaim(t.channels, e.canId, e.frame) else e.index;
    ClaimFound(t.channels, if e.Frame? then e.canId else 0, if e.Frame? then e.frame else []);
    if i < |t.channels| {
      ReceivesElsewhere(t.channels, Next(t, e).t.channels, i, rxId, txId);
    }
  }

  lemma StepReceives(t: Table, e: Event, rxId: nat, txId: nat)
    requires Inv(t) && Enabled(t, e)
    ensures Receives(Next(t, e).t.channels, rxId, txId) <==>
              match e
              case RegisterReceive(dataId, fcId) =>
                Receives(t.channels, rxId, txId) || (dataId == rxId && fcId == txId && Register(t, dataId, fcId).yes)
              case ReleaseId(id) => Receives(t.channels, rxId, txId) && id != rxId && id != txId
              case _ => Receives(t.channels, rxId, txId)
  {
    match e {
      case RegisterReceive(dataId, fcId) => RegisterReceives(t, dataId, fcId, rxId, txId);
      case ReleaseId(id) => ReleaseReceives(t, id, rxId, txId);
      case Send(_, _, _, _) => SendReceives(t, e, rxId, txId);
      case _ => InputReceives(t, e, rxId, txId);
    }
  }

  /** From an empty table, in every run, a pair receives exactly if it has been registered since either of its identifiers
      was last released; sending alone never makes it receive. */
  lemma {:induction false} ReceivesIfRegistered(size: nat, capacity: nat, blockSize: byte, separationTime: byte, es: seq<Event>,
                                                rxId: nat, txId: nat)
    ensures Inv(NewTable(size, capacity, blockSize, separationTime))
    ensures var t := NewTable(size, capacity, blockSize, separationTime);
            After(t, es).Some? ==> (Receives(After(t, es).value.channels, rxId, txId) <==> Registered(t, es, rxId, txId))
    decreases |es|
  {
    var t := NewTable(size, capacity, blockSize, separationTime);
    if es != [] && After(t, es).Some? {
      var before, e := es[..|es| - 1], es[|es| - 1];
      ReceivesIfRegistered(size, capacity, blockSize, separationTime, before, rxId, txId);
      StepReceives(After(t, before).value, e, rxId, txId);
    }
  }

  /** Every connection answers with the block size and separation time of its table. */
  predicate Parameterised(t: Table) {
    forall i :: 0 <= i < |t.channels| && t.channels[i].occupied ==>
      t.channels[i].receiver.blockSize == t.blockSize && t.channels[i].receiver.separationTime == t.separationTime
  }

  lemma ReceiverKeepsItsParameters(r: R.Receiver, e: R.Event, accepted: bool)
    requires ReceiverOk(r) && R.CanHappen(r, e)
    ensures ReceiverAfter(r, e, accepted).blockSize == r.blockSize && ReceiverAfter(r, e, accepted).separationTime == r.separationTime
  {
    R.ReceiverKeepsParameters(r, e);
  }

  lemma InputKeepsParameters(t: Table, e: Event)
    requires Inv(t) && Parameterised(t) && Enabled(t, e) && (e.Frame? || e.SenderInput? || e.ReceiverInput?)
    ensures Parameterised(Next(t, e).t)
  {
    var i := if e.Frame? then FindClaim(t.channels, e.canId, e.frame) else e.index;
    if i < |t.channels| {
      if e.Frame? {
        ReceiverKeepsItsParameters(t.channels[i].receiver, R.FrameArrives(e.frame), e.accepted);
      } else if e.ReceiverInput? {
        ReceiverKeepsItsParameters(t.channels[i].receiver, e.r, e.accepted);
      }
    }
  }

  lemma SendKeepsParameters(t: Table, e: Event)
    requires Inv(t) && Parameterised(t) && e.Send?
    ensures Parameterised(Next(t, e).t)
  {
    if SendPdu(t, e.dataId, e.fcId, e.pdu, e.accepted).yes {
      var i := SendDoes(t, e.dataId, e.fcId, e.pdu, e.accepted);
    } else {
      RefusedSendLeavesConnections(t, e.dataId, e.fcId, e.pdu, e.accepted);
    }
  }

  lemma ReleaseKeepsParameters(t: Table, id: nat)
    requires Inv(t) && Parameterised(t)
    ensures Parameterised(Release(t, id))
  {
    ReleaseDoes(t, id);
  }

  lemma RegisterKeepsParameters(t: Table, dataId: nat, fcId: nat)
    requires Inv(t) && Parameterised(t)
    ensures Parameterised(Register(t, dataId, fcId).t)
  {
    var i := RegisterDoes(t, dataId, fcId);
  }

  lemma StepKeepsParameters(t: Table, e: Event)
    requires Inv(t) && Parameterised(t) && Enabled(t, e)
    ensures Parameterised(Next(t, e).t) && Next(t, e).t.blockSize == t.blockSize && Next(t, e).t.separationTime == t.separationTime
  {
    match e {
      case RegisterReceive(dataId, fcId) => RegisterKeepsParameters(t, dataId, fcId);
      case ReleaseId(id) => ReleaseKeepsParameters(t, id);
      case Send(_, _, _, _) => SendKeepsParameters(t, e);
      case _ => InputKeepsParameters(t, e);
    }
  }

  lemma {:induction false} ConnectionsAreParameterised(size: nat, capacity: nat, blockSize: byte, separationTime: byte, es: seq<Event>)
    ensures Inv(NewTable(size, capacity, blockSize, separationTime))
    ensures var t := After(NewTable(size, capacity, blockSize, separationTime), es);
            t.Some? ==> Parameterised(t.value) && t.value.blockSize == blockSize && t.value.separationTime == separationTime
    decreases |es|
  {
    var t := NewTable(size, capacity, blockSize, separationTime);
    if es != [] && After(t, es).Some? {
      ConnectionsAreParameterised(size, capacity, blockSize, separationTime, es[..|es| - 1]);
      StepKeepsParameters(After(t, es[..|es| - 1]).value, es[|es| - 1]);
    }
  }
}
