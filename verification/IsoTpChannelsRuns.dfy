/**
 Runs of the channel table: whatever is registered, sent, released, received and
 reported, identifiers stay disjoint, so a frame has one place to go and each
 connection lives as if it were alone.
 */
module IsoTpChannelsRuns {
  import opened CanTypes
  import opened IsoTpChannels
  import Codec = IsoTpCodec
  import S = IsoTpSender
  import R = IsoTpReceiver

  datatype Event =
    | RegisterReceive(dataId: nat, fcId: nat)
    | ReleaseId(dataId: nat)
    | Send(dataId: nat, fcId: nat, pdu: seq<byte>, accepted: bool)
    | Frame(canId: nat, frame: Message, accepted: bool)
    | SenderInput(index: nat, s: S.Event, accepted: bool)
    | ReceiverInput(index: nat, r: R.Event, accepted: bool)

  /** Timers and reports that reach the sender or receiver of the channel at `index`. */
  predicate InputEnabled(ch: Channel, e: Event) {
    match e
    case SenderInput(_, s, _) =>
      (s.FrameReport? || s.NAsExpires? || s.NBsExpires? || s.StMinExpires?) && S.CanHappen(ch.sender, s) && S.Legitimate(ch.sender, s)
    case ReceiverInput(_, r, _) => (r.NCrExpires? || r.FcReport?) && R.CanHappen(ch.receiver, r)
    case _ => true
  }

  predicate Enabled(t: Table, e: Event) {
    e.SenderInput? || e.ReceiverInput? ==> e.index < |t.channels| && InputEnabled(t.channels[e.index], e)
  }

  function Fed(ch: Channel, e: Event): Channel
    requires ChannelOk(ch) && InputEnabled(ch, e)
  {
    match e
    case SenderInput(_, s, accepted) => ch.(sender := SenderAfter(ch.sender, s, accepted))
    case ReceiverInput(_, r, accepted) => ch.(receiver := ReceiverAfter(ch.receiver, r, accepted))
    case _ => ch
  }

  function Next(t: Table, e: Event): Outcome
    requires Ok(t) && Enabled(t, e)
  {
    match e
    case RegisterReceive(dataId, fcId) => Register(t, dataId, fcId)
    case ReleaseId(dataId) => Outcome(Release(t, dataId), true)
    case Send(dataId, fcId, pdu, accepted) => SendPdu(t, dataId, fcId, pdu, accepted)
    case Frame(canId, frame, accepted) => ProcessFrame(t, canId, frame, accepted)
    case SenderInput(i, _, _) => Outcome(Put(t, i, Fed(t.channels[i], e)), true)
    case ReceiverInput(i, _, _) => Outcome(Put(t, i, Fed(t.channels[i], e)), true)
  }

  /* ---- Identifiers stay disjoint ---- */

  predicate Apart(a: Channel, b: Channel) {
    a.occupied && b.occupied ==> a.rxId != b.rxId && a.rxId != b.txId && a.txId != b.rxId && a.txId != b.txId
  }

  /** All receive and transmit identifiers of channels in use are pairwise distinct. */
  predicate Disjoint(cs: seq<Channel>) {
    && (forall i :: 0 <= i < |cs| && cs[i].occupied ==> cs[i].rxId != cs[i].txId)
    && (forall i, j :: 0 <= i < |cs| && 0 <= j < |cs| && i != j ==> Apart(cs[i], cs[j]))
  }

  predicate Inv(t: Table) {
    Ok(t) && Disjoint(t.channels)
  }

  /** A changed channel keeps its identifiers, or is given ones that nobody uses. */
  predicate Fits(cs: seq<Channel>, i: nat, ch: Channel)
    requires i < |cs|
  {
    ch.occupied ==>
      || Connects(cs[i], ch.rxId, ch.txId)
      || (ch.rxId != ch.txId && forall j :: 0 <= j < |cs| ==> !Uses(cs[j], ch.rxId) && !Uses(cs[j], ch.txId))
  }

  lemma PutKeepsInv(t: Table, i: nat, ch: Channel)
    requires Inv(t) && i < |t.channels| && ChannelOk(ch) && Fits(t.channels, i, ch)
    ensures Inv(Put(t, i, ch))
  {
    var cs, after := t.channels, Put(t, i, ch).channels;
    forall a, b | 0 <= a < |after| && 0 <= b < |after| && a != b
      ensures Apart(after[a], after[b])
    {
      assert Apart(cs[a], cs[b]);
      if ch.occupied && !Connects(cs[i], ch.rxId, ch.txId) {
        assert !Uses(cs[a], ch.rxId) && !Uses(cs[a], ch.txId) && !Uses(cs[b], ch.rxId) && !Uses(cs[b], ch.txId);
      }
    }
  }

  lemma SendingIsOk(ch: Channel, pdu: seq<byte>, accepted: bool)
    requires ChannelOk(ch) && ch.occupied
    ensures ChannelOk(Sending(ch, pdu, accepted))
  {
    SenderStaysValid(ch.sender, S.Send(pdu), accepted);
  }

  lemma ReleasedIsOk(ch: Channel)
    requires ChannelOk(ch)
    ensures ChannelOk(Released(ch))
  {
  }

  lemma ProcessedIsOk(ch: Channel, frame: Message, accepted: bool)
    requires ChannelOk(ch) && ch.occupied
    ensures ChannelOk(Processed(ch, frame, accepted))
  {
    if Codec.DecodeFrameType(frame) == Codec.FlowControl {
      SenderStaysValid(ch.sender, S.FlowControlArrives(frame), accepted);
    } else {
      ReceiverStaysOk(ch.receiver, R.FrameArrives(frame), accepted);
    }
  }

  lemma FedIsOk(ch: Channel, e: Event)
    requires ChannelOk(ch) && InputEnabled(ch, e)
    ensures ChannelOk(Fed(ch, e))
  {
    match e {
      case SenderInput(_, s, accepted) =>
        SenderStaysValid(ch.sender, s, accepted);
        if !ch.occupied { IdleSenderStaysIdle(ch.sender, s, accepted); }
      case ReceiverInput(_, r, accepted) => ReceiverStaysOk(ch.receiver, r, accepted);
      case _ =>
    }
  }

  /** Nobody uses the identifiers of a connection that can be opened. */
  lemma OpenIdsAreFree(t: Table, rxId: nat, txId: nat)
    requires CanOpen(t, rxId, txId)
    ensures forall j :: 0 <= j < |t.channels| ==> !Uses(t.channels[j], rxId) && !Uses(t.channels[j], txId)
    ensures !t.channels[FindFree(t.channels)].occupied
  {
    ChannelFound(t.channels, rxId);
    ChannelFound(t.channels, txId);
    FreeFound(t.channels);
  }

  lemma OpenKeepsInv(t: Table, rxId: nat, txId: nat, ch: Channel)
    requires Inv(t) && CanOpen(t, rxId, txId) && ChannelOk(ch)
    requires ch.occupied ==> ch.rxId == rxId && ch.txId == txId
    ensures Inv(Put(t, FindFree(t.channels), ch))
  {
    OpenIdsAreFree(t, rxId, txId);
    PutKeepsInv(t, FindFree(t.channels), ch);
  }

  lemma RegisterKeepsInv(t: Table, dataId: nat, fcId: nat)
    requires Inv(t)
    ensures Inv(Register(t, dataId, fcId).t)
  {
    var i := FindConnection(t.channels, dataId, fcId);
    if i < |t.channels| {
      if !t.channels[i].receptionEnabled { PutKeepsInv(t, i, t.channels[i].(receptionEnabled := true)); }
    } else if CanOpen(t, dataId, fcId) {
      var j := FindFree(t.channels);
      var ch := Configured(t.channels[j], dataId, fcId, t.blockSize, t.separationTime).(receptionEnabled := true);
      ConfiguredIsOk(t.channels[j], dataId, fcId, t.blockSize, t.separationTime);
      OpenKeepsInv(t, dataId, fcId, ch);
      assert Register(t, dataId, fcId).t == Put(t, j, ch);
    }
  }

  lemma SendKeepsInv(t: Table, dataId: nat, fcId: nat, pdu: seq<byte>, accepted: bool)
    requires Inv(t)
    ensures Inv(SendPdu(t, dataId, fcId, pdu, accepted).t)
  {
    var i := FindConnection(t.channels, fcId, dataId);
    if i < |t.channels| {
      SendingIsOk(t.channels[i], pdu, accepted);
      PutKeepsInv(t, i, Sending(t.channels[i], pdu, accepted));
    } else if CanOpen(t, fcId, dataId) {
      var j := FindFree(t.channels);
      var ch := Configured(t.channels[j], fcId, dataId, t.blockSize, t.separationTime);
      ConfiguredIsOk(t.channels[j], fcId, dataId, t.blockSize, t.separationTime);
      SendingIsOk(ch, pdu, accepted);
      ReleasedIsOk(ch);
      var last := if S.Accepts(ch.sender, pdu) then Sending(ch, pdu, accepted) else Released(ch);
      OpenKeepsInv(t, fcId, dataId, last);
      assert SendPdu(t, dataId, fcId, pdu, accepted).t == Put(t, j, last);
    }
  }

  lemma NextKeepsInv(t: Table, e: Event)
    requires Inv(t) && Enabled(t, e)
    ensures Inv(Next(t, e).t)
  {
    match e {
      case RegisterReceive(dataId, fcId) => RegisterKeepsInv(t, dataId, fcId);
      case Send(dataId, fcId, pdu, accepted) => SendKeepsInv(t, dataId, fcId, pdu, accepted);
      case ReleaseId(dataId) =>
        var i := FindChannel(t.channels, dataId);
        if i < |t.channels| {
          ReleasedIsOk(t.channels[i]);
          PutKeepsInv(t, i, Released(t.channels[i]));
        }
      case Frame(canId, frame, accepted) =>
        var i := FindClaim(t.channels, canId, frame);
        ClaimFound(t.channels, canId, frame);
        if i < |t.channels| {
          ProcessedIsOk(t.channels[i], frame, accepted);
          PutKeepsInv(t, i, Processed(t.channels[i], frame, accepted));
        }
      case _ =>
        FedIsOk(t.channels[e.index], e);
        PutKeepsInv(t, e.index, Fed(t.channels[e.index], e));
    }
  }

  function NewChannel(capacity: nat): Channel {
    Channel(0, 0, false, false,
            S.Sender(S.Idle, [], capacity, 0, 1, 0, 0, 0, 0, 0, false, false, false),
            R.Receiver(false, [], capacity, 0, 1, 0, 0, 0, 0, false))
  }

  function NewTable(size: nat, capacity: nat, blockSize: byte, separationTime: byte): Table {
    Table(seq(size, i => NewChannel(capacity)), blockSize, separationTime)
  }

  function After(t: Table, es: seq<Event>): (r: Option<Table>)
    requires Inv(t)
    ensures r.Some? ==> Inv(r.value) && |r.value.channels| == |t.channels|
    decreases |es|
  {
    if es == [] then Some(t)
    else
      var before := After(t, es[..|es| - 1]);
      var e := es[|es| - 1];
      if before.Some? && Enabled(before.value, e) then
        NextKeepsInv(before.value, e);
        NextKeepsSize(before.value, e);
        Some(Next(before.value, e).t)
      else None
  }

  lemma NextKeepsSize(t: Table, e: Event)
    requires Ok(t) && Enabled(t, e)
    ensures |Next(t, e).t.channels| == |t.channels|
  {
  }

  /** The receive and transmit identifiers of the channels in use. */
  function Ids(cs: seq<Channel>): seq<nat> {
    if cs == [] then []
    else
      var last := cs[|cs| - 1];
      Ids(cs[..|cs| - 1]) + if last.occupied then [last.rxId, last.txId] else []
  }

  lemma {:induction false} IdIsUsed(cs: seq<Channel>, id: nat)
    requires id in Ids(cs)
    ensures exists i :: 0 <= i < |cs| && Uses(cs[i], id)
  {
    var init, last := cs[..|cs| - 1], cs[|cs| - 1];
    if Uses(last, id) {
      assert Uses(cs[|cs| - 1], id);
    } else {
      IdIsUsed(init, id);
      var i :| 0 <= i < |init| && Uses(init[i], id);
      assert Uses(cs[i], id);
    }
  }

  lemma {:induction false} DisjointIdsDiffer(cs: seq<Channel>)
    requires Disjoint(cs)
    ensures forall a, b :: 0 <= a < b < |Ids(cs)| ==> Ids(cs)[a] != Ids(cs)[b]
  {
    if cs != [] {
      var init, last := cs[..|cs| - 1], cs[|cs| - 1];
      assert forall i, j :: 0 <= i < |init| && 0 <= j < |init| && i != j ==> init[i] == cs[i] && init[j] == cs[j] && Apart(cs[i], cs[j]);
      DisjointIdsDiffer(init);
      forall a | 0 <= a < |Ids(init)| && last.occupied
        ensures Ids(init)[a] != last.rxId && Ids(init)[a] != last.txId
      {
        IdIsUsed(init, Ids(init)[a]);
        var i :| 0 <= i < |init| && Uses(init[i], Ids(init)[a]);
        assert Apart(cs[i], cs[|cs| - 1]);
      }
    }
  }

  /** From an empty table of any size, every run keeps all identifiers of channels in use pairwise distinct. */
  lemma IdentifiersStayDistinct(size: nat, capacity: nat, blockSize: byte, separationTime: byte, es: seq<Event>)
    ensures Inv(NewTable(size, capacity, blockSize, separationTime))
    ensures var t := After(NewTable(size, capacity, blockSize, separationTime), es);
            t.Some? ==>
              var ids := Ids(t.value.channels);
              forall a, b :: 0 <= a < b < |ids| ==> ids[a] != ids[b]
  {
    var t := After(NewTable(size, capacity, blockSize, separationTime), es);
    if t.Some? {
      DisjointIdsDiffer(t.value.channels);
    }
  }

  /* ---- Routing ---- */

  /** At most one channel claims a frame, so the first that claims it is the only one. */
  lemma OneChannelClaims(t: Table, canId: nat, frame: Message, i: nat)
    requires Inv(t) && i < |t.channels| && Claims(t.channels[i], canId, frame)
    ensures FindClaim(t.channels, canId, frame) == i
  {
    ClaimFound(t.channels, canId, frame);
    forall j | 0 <= j < |t.channels| && j != i
      ensures !Claims(t.channels[j], canId, frame)
    {
      assert Apart(t.channels[j], t.channels[i]);
    }
  }

  /** The same channels in another order. */
  predicate Reordered(t: Table, u: Table, p: seq<nat>) {
    && |p| == |t.channels| == |u.channels|
    && (forall i :: 0 <= i < |p| ==> p[i] < |p| && u.channels[i] == t.channels[p[i]])
    && (forall i, j :: 0 <= i < j < |p| ==> p[i] != p[j])
    && (forall k :: 0 <= k < |p| ==> k in p)
  }

  /** Where a frame goes, and what it changes there, does not depend on the order of the channels. */
  lemma RoutingIgnoresOrder(t: Table, u: Table, p: seq<nat>, canId: nat, frame: Message, accepted: bool)
    requires Inv(t) && Inv(u) && Reordered(t, u, p)
    ensures ProcessFrame(t, canId, frame, accepted).yes == ProcessFrame(u, canId, frame, accepted).yes
    ensures Reordered(ProcessFrame(t, canId, frame, accepted).t, ProcessFrame(u, canId, frame, accepted).t, p)
  {
    var k, i := FindClaim(t.channels, canId, frame), FindClaim(u.channels, canId, frame);
    ClaimFound(t.channels, canId, frame);
    ClaimFound(u.channels, canId, frame);
    if k < |p| {
      assert k in p;
      var j :| 0 <= j < |p| && p[j] == k;
      OneChannelClaims(u, canId, frame, j);
    } else if i < |p| {
      OneChannelClaims(t, canId, frame, p[i]);
    }
  }

  /** A connection that exists is found, although only its receive identifier is searched for. */
  lemma ConnectionsAreFound(t: Table, rxId: nat, txId: nat, i: nat)
    requires Inv(t) && i < |t.channels| && Connects(t.channels[i], rxId, txId)
    ensures FindConnection(t.channels, rxId, txId) == i
  {
    IdentifierIsFound(t, rxId, i);
  }

  lemma IdentifierIsFound(t: Table, id: nat, i: nat)
    requires Inv(t) && i < |t.channels| && Uses(t.channels[i], id)
    ensures FindChannel(t.channels, id) == i
  {
    ChannelFound(t.channels, id);
    forall j | 0 <= j < |t.channels| && j != i
      ensures !Uses(t.channels[j], id)
    {
      assert Apart(t.channels[j], t.channels[i]);
    }
  }

  /* ---- A refused send ---- */

  predicate SameConnections(a: seq<Channel>, b: seq<Channel>) {
    |a| == |b| && forall i :: 0 <= i < |a| ==> a[i].occupied == b[i].occupied && (a[i].occupied ==> a[i] == b[i])
  }

  /** A send that is refused, on a new pair or an existing one, leaves every connection as it was. */
  lemma RefusedSendLeavesConnections(t: Table, dataId: nat, fcId: nat, pdu: seq<byte>, accepted: bool)
    requires Inv(t) && !SendPdu(t, dataId, fcId, pdu, accepted).yes
    ensures SameConnections(t.channels, SendPdu(t, dataId, fcId, pdu, accepted).t.channels)
  {
    var i := FindConnection(t.channels, fcId, dataId);
    if i < |t.channels| {
      assert SenderAfter(t.channels[i].sender, S.Send(pdu), accepted) == t.channels[i].sender;
    } else {
      FreeFound(t.channels);
    }
  }

  /** A send is taken exactly if its connection exists with an idle sender, or can be opened, and the PDU fits. */
  lemma SendTakenExactly(t: Table, dataId: nat, fcId: nat, pdu: seq<byte>, accepted: bool)
    requires Inv(t)
    ensures SendPdu(t, dataId, fcId, pdu, accepted).yes <==>
              exists i :: 0 <= i < |t.channels| && S.Accepts(t.channels[i].sender, pdu)
                && (Connects(t.channels[i], fcId, dataId)
                    || (i == FindFree(t.channels) && CanOpen(t, fcId, dataId)))
  {
    var i, j := FindConnection(t.channels, fcId, dataId), FindFree(t.channels);
    if k :| 0 <= k < |t.channels| && S.Accepts(t.channels[k].sender, pdu)
            && (Connects(t.channels[k], fcId, dataId) || (k == j && CanOpen(t, fcId, dataId))) {
      if Connects(t.channels[k], fcId, dataId) {
        ConnectionsAreFound(t, fcId, dataId, k);
      }
    }
  }

  /* ---- Each connection as if it were alone ---- */

  /** What an event does to a connection, seen from the connection alone. */
  function Own(ch: Channel, i: nat, e: Event): Channel
    requires ChannelOk(ch)
  {
    match e
    case RegisterReceive(dataId, fcId) => if Connects(ch, dataId, fcId) then ch.(receptionEnabled := true) else ch
    case ReleaseId(dataId) => if Uses(ch, dataId) then Released(ch) else ch
    case Send(dataId, fcId, pdu, accepted) => if Connects(ch, fcId, dataId) then Sending(ch, pdu, accepted) else ch
    case Frame(canId, frame, accepted) => if Claims(ch, canId, frame) then Processed(ch, frame, accepted) else ch
    case _ => if e.index == i && InputEnabled(ch, e) then Fed(ch, e) else ch
  }

  lemma OwnIsOk(ch: Channel, i: nat, e: Event)
    requires ChannelOk(ch)
    ensures ChannelOk(Own(ch, i, e))
  {
    match e {
      case ReleaseId(_) => ReleasedIsOk(ch);
      case Send(dataId, fcId, pdu, accepted) => if Connects(ch, fcId, dataId) { SendingIsOk(ch, pdu, accepted); }
      case Frame(canId, frame, accepted) => if Claims(ch, canId, frame) { ProcessedIsOk(ch, frame, accepted); }
      case RegisterReceive(_, _) =>
      case _ => if e.index == i && InputEnabled(ch, e) { FedIsOk(ch, e); }
    }
  }

  lemma OwnRegister(t: Table, dataId: nat, fcId: nat, i: nat)
    requires Inv(t) && i < |t.channels| && t.channels[i].occupied
    ensures Register(t, dataId, fcId).t.channels[i] == Own(t.channels[i], i, RegisterReceive(dataId, fcId))
  {
    if Connects(t.channels[i], dataId, fcId) {
      ConnectionsAreFound(t, dataId, fcId, i);
    }
    FreeFound(t.channels);
  }

  lemma OwnSend(t: Table, e: Event, i: nat)
    requires Inv(t) && e.Send? && i < |t.channels| && t.channels[i].occupied
    ensures SendPdu(t, e.dataId, e.fcId, e.pdu, e.accepted).t.channels[i] == Own(t.channels[i], i, e)
  {
    if Connects(t.channels[i], e.fcId, e.dataId) {
      ConnectionsAreFound(t, e.fcId, e.dataId, i);
    }
    FreeFound(t.channels);
  }

  lemma OwnNext(t: Table, e: Event, i: nat)
    requires Inv(t) && Enabled(t, e) && i < |t.channels| && t.channels[i].occupied
    ensures i < |Next(t, e).t.channels| && Next(t, e).t.channels[i] == Own(t.channels[i], i, e)
  {
    match e {
      case RegisterReceive(dataId, fcId) => OwnRegister(t, dataId, fcId, i);
      case Send(_, _, _, _) => OwnSend(t, e, i);
      case ReleaseId(dataId) =>
        ChannelFound(t.channels, dataId);
        if Uses(t.channels[i], dataId) { IdentifierIsFound(t, dataId, i); }
      case Frame(canId, frame, _) =>
        ClaimFound(t.channels, canId, frame);
        if Claims(t.channels[i], canId, frame) { OneChannelClaims(t, canId, frame, i); }
      case _ =>
    }
  }

  function OwnAfter(ch: Channel, i: nat, es: seq<Event>): (r: Channel)
    requires ChannelOk(ch)
    ensures ChannelOk(r)
    decreases |es|
  {
    if es == [] then ch
    else
      var before := OwnAfter(ch, i, es[..|es| - 1]);
      OwnIsOk(before, i, es[|es| - 1]);
      Own(before, i, es[|es| - 1])
  }

  predicate Releases(ch: Channel, e: Event) {
    e.ReleaseId? && Uses(ch, e.dataId)
  }

  lemma OwnKeepsIds(ch: Channel, i: nat, e: Event)
    requires ChannelOk(ch) && !Releases(ch, e)
    ensures var after := Own(ch, i, e); after.occupied == ch.occupied && after.rxId == ch.rxId && after.txId == ch.txId
  {
  }

  /** Until it is released, a connection's sender and receiver go through exactly what its own events make of them,
      whatever happens on other connections of the table. */
  lemma {:induction false} ConnectionsDoNotInterfere(t: Table, es: seq<Event>, i: nat)
    requires Inv(t) && After(t, es).Some? && i < |t.channels| && t.channels[i].occupied
    requires forall k :: 0 <= k < |es| ==> !Releases(t.channels[i], es[k])
    ensures After(t, es).value.channels[i] == OwnAfter(t.channels[i], i, es)
    ensures Connects(OwnAfter(t.channels[i], i, es), t.channels[i].rxId, t.channels[i].txId)
    decreases |es|
  {
    if es != [] {
      var init, e := es[..|es| - 1], es[|es| - 1];
      ConnectionsDoNotInterfere(t, init, i);
      OwnNext(After(t, init).value, e, i);
      assert !Releases(t.channels[i], es[|es| - 1]);
      OwnKeepsIds(OwnAfter(t.channels[i], i, init), i, e);
    }
  }
}
